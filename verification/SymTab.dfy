// The symbol table (crates/greeg-index/src/symtab.rs): names are interned as they
// come and numbered in byte order at the end, so every reference goes through a
// permutation; lookups find exactly the symbols that were added.

module SymTab {
  import opened Bytes
  import opened Trigrams

  /** Supertypes a record can count. */
  const MAX_SUPERS := 255

  /** A symbol as extraction gives it. `info` stands for its kind, place and flags. */
  datatype Symbol = Symbol(name: Bytes, supers: seq<Bytes>, parent: Option<nat>, info: nat)

  /** A stored record. */
  datatype SymRec = SymRec(nameId: nat, file: nat, parent: Option<nat>, superOff: nat, superLen: nat, info: nat)

  /** A symbol with its file and the id of that file's first symbol. */
  datatype Added = Added(file: nat, first: nat, sym: Symbol)

  function NamesOf(names: seq<Bytes>, ids: seq<nat>): (r: seq<Bytes>)
    requires forall i | 0 <= i < |ids| :: ids[i] < |names|
    ensures |r| == |ids|
  {
    seq(|ids|, i requires 0 <= i < |ids| => names[ids[i]])
  }

  predicate IdsBelow(ids: seq<nat>, n: nat) {
    forall i | 0 <= i < |ids| :: ids[i] < n
  }

  // ------------------------------------------------------------ sorting ids by name

  predicate NamesAscend(names: seq<Bytes>, ids: seq<nat>) {
    IdsBelow(ids, |names|) && forall i, j | 0 <= i < j < |ids| :: Less(names[ids[i]], names[ids[j]])
  }

  function InsertId(names: seq<Bytes>, ids: seq<nat>, x: nat): (r: seq<nat>)
    requires IdsBelow(ids, |names|) && x < |names|
    ensures IdsBelow(r, |names|) && |r| == |ids| + 1 && forall y :: y in r <==> y == x || y in ids
  {
    if ids == [] || Less(names[x], names[ids[0]]) then [x] + ids
    else
      assert ids == [ids[0]] + ids[1..];
      [ids[0]] + InsertId(names, ids[1..], x)
  }

  lemma ConsAscends(names: seq<Bytes>, x: nat, ids: seq<nat>)
    requires NamesAscend(names, ids) && x < |names| && forall y | y in ids :: y < |names| && Less(names[x], names[y])
    ensures NamesAscend(names, [x] + ids)
  {
    forall j | 0 <= j < |ids| ensures Less(names[x], names[ids[j]]) {
      assert ids[j] in ids;
    }
  }

  lemma {:induction false} InsertAscends(names: seq<Bytes>, ids: seq<nat>, x: nat)
    requires NamesAscend(names, ids) && x < |names| && forall y | y in ids :: y < |names| && names[y] != names[x]
    ensures NamesAscend(names, InsertId(names, ids, x))
  {
    if ids == [] {
    } else if Less(names[x], names[ids[0]]) {
      forall y | y in ids ensures Less(names[x], names[y]) {
        var j :| 0 <= j < |ids| && ids[j] == y;
        if j > 0 {
          LessTransitive(names[x], names[ids[0]], names[y]);
        }
      }
      ConsAscends(names, x, ids);
    } else {
      assert ids[0] in ids && forall y | y in ids[1..] :: y in ids;
      LessTotal(names[x], names[ids[0]]);
      InsertAscends(names, ids[1..], x);
      ConsAscends(names, ids[0], InsertId(names, ids[1..], x));
    }
  }

  /** `0..n` in the order of their names. */
  function Order(names: seq<Bytes>, n: nat): (r: seq<nat>)
    requires n <= |names|
    ensures |r| == n && IdsBelow(r, |names|) && forall y :: y in r <==> 0 <= y < n
  {
    if n == 0 then [] else InsertId(names, Order(names, n - 1), n - 1)
  }

  predicate AllDistinct(names: seq<Bytes>) {
    forall i, j | 0 <= i < j < |names| :: names[i] != names[j]
  }

  lemma {:induction false} OrderAscends(names: seq<Bytes>, n: nat)
    requires AllDistinct(names) && n <= |names|
    ensures NamesAscend(names, Order(names, n))
  {
    if n > 0 {
      OrderAscends(names, n - 1);
      InsertAscends(names, Order(names, n - 1), n - 1);
    }
  }

  // ------------------------------------------------------------ groups

  /** The symbols with this name id, in order. */
  function Group(syms: seq<SymRec>, k: nat): (g: seq<nat>)
    ensures forall x :: x in g <==> 0 <= x < |syms| && syms[x].nameId == k
  {
    if syms == [] then []
    else
      var n := |syms| - 1;
      Group(syms[..n], k) + if syms[n].nameId == k then [n] else []
  }

  lemma {:induction false} GroupAscends(syms: seq<SymRec>, k: nat)
    ensures StrictlyAscending(Group(syms, k))
  {
    if syms != [] {
      var n := |syms| - 1;
      GroupAscends(syms[..n], k);
      assert forall i | 0 <= i < |Group(syms[..n], k)| :: Group(syms[..n], k)[i] in Group(syms[..n], k);
    }
  }

  function InsertBy(g: seq<nat>, x: nat, before: (nat, nat) -> bool): (r: seq<nat>)
    ensures multiset(r) == multiset(g) + multiset{x}
  {
    if g == [] || before(x, g[0]) then
      assert multiset([x] + g) == multiset{x} + multiset(g);
      [x] + g
    else
      assert g == [g[0]] + g[1..];
      [g[0]] + InsertBy(g[1..], x, before)
  }

  /** `sort_by`, best first by whatever score. */
  function SortBy(g: seq<nat>, before: (nat, nat) -> bool): (r: seq<nat>)
    ensures multiset(r) == multiset(g)
  {
    if g == [] then []
    else
      assert g == [g[0]] + g[1..];
      InsertBy(SortBy(g[1..], before), g[0], before)
  }

  /** A list of exactly these symbols, none twice, in any order. */
  ghost predicate Enumerates(g: seq<nat>, syms: seq<SymRec>, k: nat) {
    multiset(g) == multiset(Group(syms, k))
  }

  lemma EnumeratesMeans(g: seq<nat>, syms: seq<SymRec>, k: nat)
    requires Enumerates(g, syms, k)
    ensures forall x :: x in g <==> 0 <= x < |syms| && syms[x].nameId == k
    ensures Distinct(g)
  {
    GroupAscends(syms, k);
    var s := Group(syms, k);
    forall x ensures x in g <==> x in s {
      assert x in g <==> x in multiset(g);
      assert x in s <==> x in multiset(s);
    }
    forall i, j | 0 <= i < j < |g| ensures g[i] != g[j] {
      OnceEach(s, g[i]);
      if g[i] == g[j] {
        TwiceIn(g, i, j);
      }
    }
  }

  lemma {:induction false} OnceEach(s: seq<nat>, x: nat)
    requires StrictlyAscending(s)
    ensures multiset(s)[x] <= 1
  {
    if s != [] {
      assert s == [s[0]] + s[1..];
      OnceEach(s[1..], x);
      if s[0] == x {
        assert x !in s[1..];
        assert x !in multiset(s[1..]);
      }
    }
  }

  lemma TwiceIn(g: seq<nat>, i: nat, j: nat)
    requires i < j < |g| && g[i] == g[j]
    ensures multiset(g)[g[i]] >= 2
  {
    assert g == g[..j] + g[j..];
    assert g[i] in g[..j] && g[j] in g[j..];
    assert multiset(g) == multiset(g[..j]) + multiset(g[j..]);
    assert g[..j][i] in multiset(g[..j]) && g[j..][0] in multiset(g[j..]);
  }

  // ------------------------------------------------------------ rows

  function Joined(gs: seq<seq<nat>>): seq<nat> {
    if gs == [] then [] else Joined(gs[..|gs| - 1]) + gs[|gs| - 1]
  }

  lemma {:induction false} JoinedPrefix(gs: seq<seq<nat>>, k: nat)
    requires k <= |gs|
    ensures Joined(gs[..k]) <= Joined(gs)
  {
    if k < |gs| {
      var n := |gs| - 1;
      JoinedPrefix(gs[..n], k);
      assert gs[..n][..k] == gs[..k];
    } else {
      assert gs[..k] == gs;
    }
  }

  lemma RowOfJoined(gs: seq<seq<nat>>, k: nat)
    requires k < |gs|
    ensures |Joined(gs[..k])| <= |Joined(gs[..k + 1])| <= |Joined(gs)|
    ensures Joined(gs)[|Joined(gs[..k])|..|Joined(gs[..k + 1])|] == gs[k]
  {
    JoinedPrefix(gs, k + 1);
    assert gs[..k + 1][..k] == gs[..k];
  }

  // ------------------------------------------------------------ the view

  datatype SymbolsView = SymbolsView(
    symOff: seq<nat>, syms: seq<SymRec>, supers: seq<nat>, names: seq<Bytes>, byNameOff: seq<nat>, byName: seq<nat>)
  {
    /** Symbols of a file, and the id of the first one. */
    function SymbolsOf(file: nat): (nat, seq<SymRec>) {
      if file + 1 < |symOff| && symOff[file] <= symOff[file + 1] <= |syms|
      then (symOff[file], syms[symOff[file]..symOff[file + 1]])
      else (0, [])
    }

    /** Symbol ids with this name. */
    function SymsNamed(k: nat): seq<nat> {
      if k + 1 < |byNameOff| && byNameOff[k] <= byNameOff[k + 1] <= |byName|
      then byName[byNameOff[k]..byNameOff[k + 1]]
      else []
    }

    function SupersOf(s: SymRec): seq<nat> {
      if s.superOff + s.superLen <= |supers| then supers[s.superOff..s.superOff + s.superLen] else []
    }

    /** Binary search in byte order. */
    method FindName(name: Bytes) returns (r: Option<nat>)
      ensures r.Some? ==> r.value < |names| && names[r.value] == name
      ensures Ascending(names) ==> (r.Some? <==> name in names)
    {
      var lo, hi := 0, |names|;
      while lo < hi
        invariant 0 <= lo <= hi <= |names|
        invariant Ascending(names) ==> forall i | 0 <= i < |names| && names[i] == name :: lo <= i < hi
      {
        var mid := (lo + hi) / 2;
        if names[mid] == name {
          return Some(mid);
        }
        LessTotal(names[mid], name);
        if Ascending(names) {
          forall i | 0 <= i < |names| && names[i] == name ensures if Less(names[mid], name) then mid < i else i < mid {
            LessIrreflexive(name);
            if Less(names[mid], name) && i < mid {
              LessTransitive(name, names[mid], name);
            }
            if Less(name, names[mid]) && mid < i {
              LessTransitive(name, names[mid], name);
            }
          }
        }
        if Less(names[mid], name) {
          lo := mid + 1;
        } else {
          hi := mid;
        }
      }
      r := None;
    }
  }

  // ------------------------------------------------------------ what was added

  ghost predicate Mentioned(added: seq<Added>, name: Bytes) {
    exists i :: 0 <= i < |added| && (added[i].sym.name == name || name in added[i].sym.supers)
  }

  /** A record holds what was added: its name, parent and supertypes, through the
      name ids of this table. */
  ghost predicate Stores(names: seq<Bytes>, supers: seq<nat>, s: SymRec, a: Added) {
    && s.nameId < |names| && names[s.nameId] == a.sym.name
    && s.file == a.file && s.info == a.sym.info
    && s.parent == (if a.sym.parent.Some? then Some(a.first + a.sym.parent.value) else None)
    && s.superLen == Min(|a.sym.supers|, MAX_SUPERS)
    && s.superOff + |a.sym.supers| <= |supers|
    && forall j | 0 <= j < |a.sym.supers| :: NamedAt(names, supers, s.superOff + j, a.sym.supers[j])
  }

  ghost predicate NamedAt(names: seq<Bytes>, supers: seq<nat>, i: nat, name: Bytes) {
    i < |supers| && supers[i] < |names| && names[supers[i]] == name
  }

  ghost predicate StoresAll(names: seq<Bytes>, supers: seq<nat>, syms: seq<SymRec>, added: seq<Added>) {
    |syms| == |added| && forall i | 0 <= i < |syms| :: Stores(names, supers, syms[i], added[i])
  }

  /** The offset of a file is past exactly the symbols of earlier files. */
  ghost predicate FilesInOrder(symOff: seq<nat>, syms: seq<SymRec>) {
    && (forall f | 0 <= f < |symOff| :: symOff[f] <= |syms|)
    && (forall f, i | 0 <= f < |symOff| && 0 <= i < |syms| :: i < symOff[f] <==> syms[i].file < f)
  }

  /** The finished table answers for everything that was added. */
  ghost predicate Answers(v: SymbolsView, added: seq<Added>, nFiles: nat) {
    && Ascending(v.names) && (forall name :: name in v.names <==> Mentioned(added, name))
    && StoresAll(v.names, v.supers, v.syms, added)
    && (forall k | 0 <= k < |v.names| :: Enumerates(v.SymsNamed(k), v.syms, k))
    && |v.symOff| == nFiles + 1 && FilesInOrder(v.symOff, v.syms)
  }

  /** A name is found exactly when some symbol or supertype has it, and leads to
      exactly the symbols so named. */
  method Lookup(v: SymbolsView, ghost added: seq<Added>, ghost nFiles: nat, name: Bytes) returns (r: Option<seq<nat>>)
    requires Answers(v, added, nFiles)
    ensures r.Some? <==> Mentioned(added, name)
    ensures r.Some? ==> Distinct(r.value) && forall i: nat :: i in r.value <==> i < |added| && added[i].sym.name == name
  {
    var id := v.FindName(name);
    if id.None? {
      return None;
    }
    var k := id.value;
    r := Some(v.SymsNamed(k));
    EnumeratesMeans(v.SymsNamed(k), v.syms, k);
    forall i: nat ensures i in r.value <==> i < |added| && added[i].sym.name == name {
      if i < |added| {
        assert Stores(v.names, v.supers, v.syms[i], added[i]);
        if v.syms[i].nameId != k {
          NamesApart(v.names, v.syms[i].nameId, k);
        }
      }
    }
  }

  lemma NamesApart(names: seq<Bytes>, a: nat, b: nat)
    requires Ascending(names) && a < |names| && b < |names| && a != b
    ensures names[a] != names[b]
  {
    LessIrreflexive(names[a]);
  }

  /** A file's symbols are those added for it, in order. */
  lemma FileSymbols(v: SymbolsView, added: seq<Added>, nFiles: nat, f: nat)
    requires Answers(v, added, nFiles) && f < nFiles
    ensures var (first, part) := v.SymbolsOf(f);
      && first + |part| <= |v.syms| && part == v.syms[first..first + |part|]
      && forall i: nat :: first <= i < first + |part| <==> i < |added| && added[i].file == f
  {
    var i := v.symOff[f + 1];
    assert i < |v.syms| ==> (i < v.symOff[f] <==> v.syms[i].file < f) && (i < v.symOff[f + 1] <==> v.syms[i].file < f + 1);
    forall i: nat ensures v.symOff[f] <= i < v.symOff[f + 1] <==> i < |added| && added[i].file == f {
      if i < |added| {
        assert Stores(v.names, v.supers, v.syms[i], added[i]);
        assert i < v.symOff[f] <==> v.syms[i].file < f;
        assert i < v.symOff[f + 1] <==> v.syms[i].file < f + 1;
      }
    }
  }

  /** A symbol's supertypes keep their names: the first 255 of them. */
  lemma SymbolSupers(v: SymbolsView, added: seq<Added>, nFiles: nat, i: nat)
    requires Answers(v, added, nFiles) && i < |added|
    ensures var ids, supers := v.SupersOf(v.syms[i]), added[i].sym.supers;
      && |ids| == Min(|supers|, MAX_SUPERS)
      && forall j | 0 <= j < |ids| :: ids[j] < |v.names| && v.names[ids[j]] == supers[j]
  {
    var s, a := v.syms[i], added[i];
    var ids := v.SupersOf(s);
    assert Stores(v.names, v.supers, s, a);
    assert ids == v.supers[s.superOff..s.superOff + s.superLen];
    forall j | 0 <= j < |ids| ensures ids[j] < |v.names| && v.names[ids[j]] == a.sym.supers[j] {
      assert NamedAt(v.names, v.supers, s.superOff + j, a.sym.supers[j]);
      assert ids[j] == v.supers[s.superOff + j];
    }
  }

  // ------------------------------------------------------------ the builder

  ghost predicate Interned(interner: map<Bytes, nat>, names: seq<Bytes>) {
    && (forall n | n in interner :: interner[n] < |names| && names[interner[n]] == n)
    && (forall i | 0 <= i < |names| :: names[i] in interner && interner[names[i]] == i)
  }

  lemma InternedDistinct(interner: map<Bytes, nat>, names: seq<Bytes>)
    requires Interned(interner, names)
    ensures AllDistinct(names)
  {
    forall i, j | 0 <= i < j < |names| ensures names[i] != names[j] {
      assert interner[names[i]] == i && interner[names[j]] == j;
    }
  }

  /** More names and more supertypes leave every record as it was. */
  lemma StoresMore(names: seq<Bytes>, supers: seq<nat>, s: SymRec, a: Added, moreNames: seq<Bytes>, moreSupers: seq<nat>)
    requires Stores(names, supers, s, a)
    ensures Stores(names + moreNames, supers + moreSupers, s, a)
  {
    forall j | 0 <= j < |a.sym.supers|
      ensures NamedAt(names + moreNames, supers + moreSupers, s.superOff + j, a.sym.supers[j])
    {
      assert NamedAt(names, supers, s.superOff + j, a.sym.supers[j]);
    }
  }

  lemma StoresAllMore(names: seq<Bytes>, supers: seq<nat>, syms: seq<SymRec>, added: seq<Added>,
                      now: seq<Bytes>, nowSupers: seq<nat>)
    requires StoresAll(names, supers, syms, added) && names <= now && supers <= nowSupers
    ensures StoresAll(now, nowSupers, syms, added)
  {
    forall i | 0 <= i < |syms| ensures Stores(now, nowSupers, syms[i], added[i]) {
      StoresMore(names, supers, syms[i], added[i], now[|names|..], nowSupers[|supers|..]);
      assert now == names + now[|names|..] && nowSupers == supers + nowSupers[|supers|..];
    }
  }

  class SymBuilder {
    const nFiles: nat
    var interner: map<Bytes, nat>
    var names: seq<Bytes>
    var symOff: seq<nat>
    var syms: seq<SymRec>
    var supers: seq<nat>
    /** Everything added so far. */
    ghost var added: seq<Added>

    ghost predicate Valid()
      reads this
    {
      && Interned(interner, names) && IdsBelow(supers, |names|)
      && StoresAll(names, supers, syms, added)
      && FilesInOrder(symOff, syms) && (forall i | 0 <= i < |syms| :: syms[i].file < |symOff|)
      && |symOff| <= nFiles && (forall n :: n in names <==> Mentioned(added, n))
    }

    constructor (nFiles: nat)
      ensures Valid() && this.nFiles == nFiles && added == [] && names == [] && symOff == []
    {
      this.nFiles := nFiles;
      interner, names, symOff, syms, supers, added := map[], [], [], [], [], [];
    }

    /** The id of a name, a new one if it has none yet. */
    method Intern(name: Bytes) returns (id: nat)
      requires Interned(interner, names)
      modifies this`interner, this`names
      ensures Interned(interner, names) && old(names) <= names
      ensures id < |names| && names[id] == name
      ensures forall n :: n in names <==> n in old(names) || n == name
    {
      if name in interner {
        return interner[name];
      }
      id := |names|;
      names := names + [name];
      interner := interner[name := id];
    }

    /** Intern a symbol's supertypes and append their ids. */
    method AddSupers(list: seq<Bytes>)
      requires Interned(interner, names) && IdsBelow(supers, |names|)
      modifies this`interner, this`names, this`supers
      ensures Interned(interner, names) && IdsBelow(supers, |names|)
      ensures old(names) <= names && old(supers) <= supers && |supers| == |old(supers)| + |list|
      ensures forall j | 0 <= j < |list| :: NamedAt(names, supers, |old(supers)| + j, list[j])
      ensures forall n :: n in names <==> n in old(names) || n in list
    {
      ghost var was := |supers|;
      for i := 0 to |list|
        invariant Interned(interner, names) && IdsBelow(supers, |names|)
        invariant old(names) <= names && old(supers) <= supers && |supers| == was + i
        invariant forall j | 0 <= j < i :: NamedAt(names, supers, was + j, list[j])
        invariant forall n :: n in names <==> n in old(names) || n in list[..i]
      {
        ghost var before, beforeSupers := names, supers;
        var id := Intern(list[i]);
        supers := supers + [id];
        forall j | 0 <= j < i + 1 ensures NamedAt(names, supers, was + j, list[j]) {
          assert j < i ==> NamedAt(before, beforeSupers, was + j, list[j]);
        }
        assert list[..i + 1] == list[..i] + [list[i]];
      }
      assert list[..|list|] == list;
    }

    /** One symbol of the file whose first symbol has id `first`. */
    method AddSymbol(file: nat, first: nat, s: Symbol)
      requires Valid() && |symOff| == file + 1
      modifies this`interner, this`names, this`supers, this`syms, this`added
      ensures Valid() && added == old(added) + [Added(file, first, s)]
    {
      ghost var names0, supers0 := names, supers;
      var id := Intern(s.name);
      var off := |supers|;
      AddSupers(s.supers);
      StoresAllMore(names0, supers0, syms, added, names, supers);
      var rec := SymRec(id, file, if s.parent.Some? then Some(first + s.parent.value) else None, off,
                        Min(|s.supers|, MAX_SUPERS), s.info);
      assert Stores(names, supers, rec, Added(file, first, s));
      forall n ensures n in names <==> Mentioned(added + [Added(file, first, s)], n) {
        MentionedSnoc(added, Added(file, first, s), n);
      }
      syms := syms + [rec];
      added := added + [Added(file, first, s)];
    }

    /** Files come in ascending order; gaps get empty slices. */
    method AddFile(file: nat, ex: Option<seq<Symbol>>)
      requires Valid() && |symOff| <= file < nFiles
      modifies this`interner, this`names, this`supers, this`syms, this`added, this`symOff
      ensures Valid() && |symOff| == file + 1
      ensures added == old(added) + AddedOf(file, |old(syms)|, if ex.Some? then ex.value else [])
    {
      while |symOff| < file + 1
        invariant Valid() && |symOff| <= file + 1 && unchanged(this`syms, this`names, this`added)
        invariant forall i | 0 <= i < |syms| :: syms[i].file < |old(symOff)|
        invariant |old(symOff)| <= |symOff|
      {
        symOff := symOff + [|syms|];
      }
      if ex.None? {
        return;
      }
      var base := |syms|;
      for i := 0 to |ex.value|
        invariant Valid() && |symOff| == file + 1
        invariant added == old(added) + AddedOf(file, base, ex.value[..i])
      {
        AddedStep(file, base, ex.value, i);
        AddSymbol(file, base, ex.value[i]);
      }
      assert ex.value[..|ex.value|] == ex.value;
    }

    /** The finished table, whatever the order `best` puts same-named symbols in. */
    method Finish(best: (nat, nat) -> bool) returns (v: SymbolsView)
      requires Valid()
      modifies this`symOff, this`syms, this`supers
      ensures Answers(v, added, nFiles)
    {
      while |symOff| < nFiles + 1
        invariant |symOff| <= nFiles + 1 && FilesInOrder(symOff, syms)
        invariant unchanged(this`syms, this`supers) && forall i | 0 <= i < |syms| :: syms[i].file < |symOff|
      {
        symOff := symOff + [|syms|];
      }
      InternedDistinct(interner, names);
      v := Table(names, symOff, syms, supers, added, nFiles, best);
      syms, supers := v.syms, v.supers;
    }
  }

  function AddedOf(file: nat, first: nat, list: seq<Symbol>): seq<Added> {
    seq(|list|, i requires 0 <= i < |list| => Added(file, first, list[i]))
  }

  lemma AddedStep(file: nat, first: nat, list: seq<Symbol>, i: nat)
    requires i < |list|
    ensures AddedOf(file, first, list[..i + 1]) == AddedOf(file, first, list[..i]) + [Added(file, first, list[i])]
  {
  }

  lemma MentionedSnoc(some: seq<Added>, a: Added, n: Bytes)
    ensures Mentioned(some + [a], n) <==> Mentioned(some, n) || n == a.sym.name || n in a.sym.supers
  {
    var all := some + [a];
    assert all[|some|] == a && forall i | 0 <= i < |some| :: all[i] == some[i];
    if Mentioned(some, n) {
      var i :| 0 <= i < |some| && (some[i].sym.name == n || n in some[i].sym.supers);
      assert all[i] == some[i];
    }
  }

  // ------------------------------------------------------------ finishing

  /** The position of every id in the order. */
  method Remap(order: seq<nat>) returns (remap: seq<nat>)
    requires IdsBelow(order, |order|) && Distinct(order)
    ensures |remap| == |order| && forall k | 0 <= k < |order| :: remap[order[k]] == k
  {
    var a := new nat[|order|](_ => 0);
    for k := 0 to |order|
      invariant forall j | 0 <= j < k :: a[order[j]] == j
    {
      a[order[k]] := k;
    }
    remap := a[..];
  }

  /** Every id leads to its own name still, through the permutation. */
  ghost predicate IsRenaming(names: seq<Bytes>, remap: seq<nat>, sorted: seq<Bytes>) {
    |remap| == |names| && forall x | 0 <= x < |names| :: remap[x] < |sorted| && sorted[remap[x]] == names[x]
  }

  lemma Renamed(names: seq<Bytes>, order: seq<nat>, remap: seq<nat>, sorted: seq<Bytes>)
    requires |order| == |names| == |remap| && IdsBelow(order, |names|) && sorted == NamesOf(names, order)
    requires forall x | 0 <= x < |names| :: x in order
    requires forall k | 0 <= k < |order| :: remap[order[k]] == k
    ensures IsRenaming(names, remap, sorted)
  {
    forall x | 0 <= x < |names| ensures remap[x] < |sorted| && sorted[remap[x]] == names[x] {
      assert x in order;
      var k :| 0 <= k < |order| && order[k] == x;
    }
  }

  lemma SortedNames(names: seq<Bytes>, order: seq<nat>, sorted: seq<Bytes>)
    requires |order| == |names| && NamesAscend(names, order) && sorted == NamesOf(names, order)
    requires forall x | 0 <= x < |names| :: x in order
    ensures Ascending(sorted) && forall n :: n in sorted <==> n in names
  {
    forall n | n in names ensures n in sorted {
      var x :| 0 <= x < |names| && names[x] == n;
      assert x in order;
      var k :| 0 <= k < |order| && order[k] == x;
      assert sorted[k] == n;
    }
  }

  method RenumberSyms(syms: seq<SymRec>, remap: seq<nat>) returns (r: seq<SymRec>)
    requires forall i | 0 <= i < |syms| :: syms[i].nameId < |remap|
    ensures |r| == |syms| && forall i | 0 <= i < |r| :: r[i] == syms[i].(nameId := remap[syms[i].nameId])
  {
    r := syms;
    for i := 0 to |syms|
      invariant |r| == |syms|
      invariant forall j | 0 <= j < i :: r[j] == syms[j].(nameId := remap[syms[j].nameId])
      invariant forall j | i <= j < |syms| :: r[j] == syms[j]
    {
      r := r[i := r[i].(nameId := remap[r[i].nameId])];
    }
  }

  method RenumberIds(ids: seq<nat>, remap: seq<nat>) returns (r: seq<nat>)
    requires IdsBelow(ids, |remap|)
    ensures |r| == |ids| && forall i | 0 <= i < |r| :: r[i] == remap[ids[i]]
  {
    r := ids;
    for i := 0 to |ids|
      invariant |r| == |ids|
      invariant forall j | 0 <= j < i :: r[j] == remap[ids[j]]
      invariant forall j | i <= j < |ids| :: r[j] == ids[j]
    {
      r := r[i := remap[r[i]]];
    }
  }

  lemma RenumberedStores(names: seq<Bytes>, supers: seq<nat>, syms: seq<SymRec>, added: seq<Added>,
                         remap: seq<nat>, sorted: seq<Bytes>, now: seq<nat>, nowSyms: seq<SymRec>)
    requires StoresAll(names, supers, syms, added) && IsRenaming(names, remap, sorted) && IdsBelow(supers, |remap|)
    requires |now| == |supers| && forall i | 0 <= i < |now| :: now[i] == remap[supers[i]]
    requires |nowSyms| == |syms|
    requires forall i | 0 <= i < |syms| :: syms[i].nameId < |remap| && nowSyms[i] == syms[i].(nameId := remap[syms[i].nameId])
    ensures StoresAll(sorted, now, nowSyms, added)
  {
    forall i | 0 <= i < |syms| ensures Stores(sorted, now, nowSyms[i], added[i]) {
      assert Stores(names, supers, syms[i], added[i]);
      forall j | 0 <= j < |added[i].sym.supers|
        ensures NamedAt(sorted, now, syms[i].superOff + j, added[i].sym.supers[j])
      {
        assert NamedAt(names, supers, syms[i].superOff + j, added[i].sym.supers[j]);
      }
    }
  }

  /** `groups[name_id].push(i)`. */
  method Groups(syms: seq<SymRec>, n: nat) returns (groups: seq<seq<nat>>)
    requires forall i | 0 <= i < |syms| :: syms[i].nameId < n
    ensures |groups| == n && forall k | 0 <= k < n :: groups[k] == Group(syms, k)
  {
    var a := new seq<nat>[n](_ => []);
    for i := 0 to |syms|
      invariant forall k | 0 <= k < n :: a[k] == Group(syms[..i], k)
    {
      forall k ensures Group(syms[..i + 1], k) == Group(syms[..i], k) + if syms[i].nameId == k then [i] else [] {
        assert syms[..i + 1][..i] == syms[..i];
      }
      a[syms[i].nameId] := a[syms[i].nameId] + [i];
    }
    assert syms[..|syms|] == syms;
    groups := a[..];
  }

  /** Row `k` of the table by name. */
  ghost predicate NamedRow(off: seq<nat>, byName: seq<nat>, syms: seq<SymRec>, k: nat) {
    && k + 1 < |off| && off[k] <= off[k + 1] <= |byName|
    && Enumerates(byName[off[k]..off[k + 1]], syms, k)
  }

  /** The rows so far, one after the other. */
  ghost predicate Rows(off: seq<nat>, byName: seq<nat>, gs: seq<seq<nat>>, syms: seq<SymRec>) {
    && |off| == |gs| && byName == Joined(gs)
    && forall j | 0 <= j < |gs| :: RowStarts(off, gs, syms, j)
  }

  ghost predicate RowStarts(off: seq<nat>, gs: seq<seq<nat>>, syms: seq<SymRec>, j: nat) {
    j < |gs| && j < |off| && off[j] == |Joined(gs[..j])| && Enumerates(gs[j], syms, j)
  }

  lemma RowsStep(off: seq<nat>, byName: seq<nat>, gs: seq<seq<nat>>, syms: seq<SymRec>, g: seq<nat>)
    requires Rows(off, byName, gs, syms) && Enumerates(g, syms, |gs|)
    ensures Rows(off + [|byName|], byName + g, gs + [g], syms)
  {
    var all, now := gs + [g], off + [|byName|];
    assert all[..|gs|] == gs;
    forall j: nat | j < |all| ensures RowStarts(now, all, syms, j) {
      if j < |gs| {
        assert RowStarts(off, gs, syms, j) && all[..j] == gs[..j];
      }
    }
  }

  lemma RowsDone(off: seq<nat>, byName: seq<nat>, gs: seq<seq<nat>>, syms: seq<SymRec>, k: nat)
    requires Rows(off, byName, gs, syms) && k < |gs|
    ensures NamedRow(off + [|byName|], byName, syms, k)
  {
    RowOfJoined(gs, k);
    assert RowStarts(off, gs, syms, k);
    if k + 1 < |gs| {
      assert RowStarts(off, gs, syms, k + 1);
    } else {
      assert gs[..k + 1] == gs;
    }
  }

  /** Each name's symbols, one name after the other. */
  method ByName(syms: seq<SymRec>, n: nat, best: (nat, nat) -> bool) returns (off: seq<nat>, byName: seq<nat>)
    requires forall i | 0 <= i < |syms| :: syms[i].nameId < n
    ensures |off| == n + 1
    ensures forall k | 0 <= k < n :: NamedRow(off, byName, syms, k)
  {
    var groups := Groups(syms, n);
    off, byName := [], [];
    ghost var gs: seq<seq<nat>> := [];
    for k := 0 to n
      invariant |gs| == k && Rows(off, byName, gs, syms)
    {
      var g := groups[k];
      if |g| > 1 {
        g := SortBy(g, best);
      }
      RowsStep(off, byName, gs, syms, g);
      gs := gs + [g];
      off := off + [|byName|];
      byName := byName + g;
    }
    forall k: nat | k < n ensures NamedRow(off + [|byName|], byName, syms, k) {
      RowsDone(off, byName, gs, syms, k);
    }
    off := off + [|byName|];
  }

  lemma AscendDistinct(names: seq<Bytes>, ids: seq<nat>)
    requires NamesAscend(names, ids)
    ensures Distinct(ids)
  {
    forall i, j | 0 <= i < j < |ids| ensures ids[i] != ids[j] {
      LessIrreflexive(names[ids[i]]);
    }
  }

  lemma StoredIds(names: seq<Bytes>, supers: seq<nat>, syms: seq<SymRec>, added: seq<Added>)
    requires StoresAll(names, supers, syms, added)
    ensures forall i | 0 <= i < |syms| :: syms[i].nameId < |names|
  {
    forall i | 0 <= i < |syms| ensures syms[i].nameId < |names| {
      assert Stores(names, supers, syms[i], added[i]);
    }
  }

  lemma RenamedIds(syms: seq<SymRec>, now: seq<SymRec>, names: seq<Bytes>, remap: seq<nat>, sorted: seq<Bytes>)
    requires IsRenaming(names, remap, sorted) && |now| == |syms|
    requires forall i | 0 <= i < |syms| :: syms[i].nameId < |remap| && now[i] == syms[i].(nameId := remap[syms[i].nameId])
    ensures forall i | 0 <= i < |now| :: now[i].nameId < |sorted|
  {
  }

  lemma SameFiles(symOff: seq<nat>, syms: seq<SymRec>, now: seq<SymRec>)
    requires FilesInOrder(symOff, syms) && |now| == |syms| && forall i | 0 <= i < |syms| :: now[i].file == syms[i].file
    ensures FilesInOrder(symOff, now)
  {
  }

  /** Sort the names, renumber every reference, and group the symbols by name. */
  method Table(names: seq<Bytes>, symOff: seq<nat>, syms: seq<SymRec>, supers: seq<nat>, ghost added: seq<Added>,
               nFiles: nat, best: (nat, nat) -> bool) returns (v: SymbolsView)
    requires AllDistinct(names) && IdsBelow(supers, |names|) && StoresAll(names, supers, syms, added)
    requires forall n :: n in names <==> Mentioned(added, n)
    requires |symOff| == nFiles + 1 && FilesInOrder(symOff, syms)
    ensures Answers(v, added, nFiles) && v.symOff == symOff
  {
    OrderAscends(names, |names|);
    var order := Order(names, |names|);
    AscendDistinct(names, order);
    var remap := Remap(order);
    var sorted := NamesOf(names, order);
    Renamed(names, order, remap, sorted);
    SortedNames(names, order, sorted);
    StoredIds(names, supers, syms, added);
    var nowSyms := RenumberSyms(syms, remap);
    var now := RenumberIds(supers, remap);
    RenumberedStores(names, supers, syms, added, remap, sorted, now, nowSyms);
    RenamedIds(syms, nowSyms, names, remap, sorted);
    SameFiles(symOff, syms, nowSyms);
    var byNameOff, byName := ByName(nowSyms, |sorted|, best);
    v := SymbolsView(symOff, nowSyms, now, sorted, byNameOff, byName);
    forall k | 0 <= k < |sorted| ensures Enumerates(v.SymsNamed(k), nowSyms, k) {
      assert NamedRow(byNameOff, byName, nowSyms, k);
    }
  }
}
