// Incremental re-resolution (crates/greeg-index/src/fresh.rs, resolve.rs): which
// stored imports a set of added and deleted files can move, and exactly when an
// import the filter rejects is sure to resolve as before.

module Reach {
  import opened Bytes

  type Paths = set<string>

  // ------------------------------------------------------------ strings

  /** One past the last `c`, or 0. */
  function LastAfter(s: string, c: char): (i: nat)
    ensures i <= |s|
  {
    if s == "" then 0 else if s[|s| - 1] == c then |s| else LastAfter(s[..|s| - 1], c)
  }

  /** What follows the last `c`. */
  function Tail(s: string, c: char): string {
    s[LastAfter(s, c)..]
  }

  function LastName(path: string): string {
    Tail(path, '/')
  }

  /** Everything before the last slash; empty when there is none. */
  function DirOf(path: string): string {
    if LastAfter(path, '/') == 0 then "" else path[..LastAfter(path, '/') - 1]
  }

  function Join(dir: string, name: string): string {
    if dir == "" then name else dir + "/" + name
  }

  predicate EndsWith(s: string, suffix: string) {
    |suffix| <= |s| && s[|s| - |suffix|..] == suffix
  }

  function Stripped(s: string, suffix: string): string
    requires EndsWith(s, suffix)
  {
    s[..|s| - |suffix|]
  }

  /** `s.split(c)`. */
  function Split(s: string, c: char): (parts: seq<string>)
    ensures parts != []
  {
    if s == "" then [""]
    else if s[0] == c then [""] + Split(s[1..], c)
    else
      var rest := Split(s[1..], c);
      [[s[0]] + rest[0]] + rest[1..]
  }

  lemma {:induction false} LastAfterIs(s: string, c: char, i: nat)
    requires i <= |s| && c !in s[i..] && (i > 0 ==> s[i - 1] == c)
    ensures LastAfter(s, c) == i
    decreases |s|
  {
    if i < |s| {
      assert s[i..] == s[..|s| - 1][i..] + [s[|s| - 1]];
      assert s[|s| - 1] in s[i..];
      LastAfterIs(s[..|s| - 1], c, i);
    }
  }

  lemma {:induction false} TailFree(s: string, c: char)
    ensures c !in Tail(s, c)
    ensures LastAfter(s, c) > 0 ==> s[LastAfter(s, c) - 1] == c
  {
    if s != "" && s[|s| - 1] != c {
      var front := s[..|s| - 1];
      TailFree(front, c);
      assert Tail(s, c) == Tail(front, c) + [s[|s| - 1]];
    }
  }

  /** After a prefix ending in `c`, the tail is that of the rest. */
  lemma TailAfter(a: string, c: char, b: string)
    ensures Tail(a + [c] + b, c) == Tail(b, c)
  {
    var i := LastAfter(b, c);
    var s := a + [c] + b;
    TailFree(b, c);
    assert s[|a| + 1 + i..] == b[i..];
    LastAfterIs(s, c, |a| + 1 + i);
  }

  lemma {:induction false} WholeTail(b: string, c: char)
    requires c !in b
    ensures Tail(b, c) == b && LastAfter(b, c) == 0
  {
    assert b[0..] == b;
    LastAfterIs(b, c, 0);
  }

  lemma JoinName(dir: string, name: string)
    requires '/' !in name
    ensures LastName(Join(dir, name)) == name && (dir != "" ==> DirOf(Join(dir, name)) == dir)
  {
    WholeTail(name, '/');
    if dir != "" {
      TailAfter(dir, '/', name);
      var p := dir + "/" + name;
      assert p[|dir| + 1..] == name;
      LastAfterIs(p, '/', |dir| + 1);
    }
  }

  lemma TailCons(x: char, s: string, c: char)
    ensures Tail([x] + s, c) == if c in s || x == c then Tail(s, c) else [x] + s
  {
    var i := LastAfter(s, c);
    TailFree(s, c);
    if c in s {
      HasTail(s, c);
      assert ([x] + s)[1 + i..] == s[i..];
      LastAfterIs([x] + s, c, 1 + i);
    } else if x == c {
      WholeTail(s, c);
      assert ([x] + s)[1..] == s;
      LastAfterIs([x] + s, c, 1);
    } else {
      WholeTail([x] + s, c);
    }
  }

  lemma {:induction false} SplitLast(s: string, c: char)
    ensures Split(s, c)[|Split(s, c)| - 1] == Tail(s, c)
  {
    if s != "" {
      assert s == [s[0]] + s[1..];
      SplitLast(s[1..], c);
      TailCons(s[0], s[1..], c);
      OnePart(s[1..], c);
    }
  }

  lemma {:induction false} HasTail(s: string, c: char)
    requires c in s
    ensures LastAfter(s, c) > 0
  {
    if s[|s| - 1] != c {
      assert s == s[..|s| - 1] + [s[|s| - 1]];
      HasTail(s[..|s| - 1], c);
    }
  }

  lemma {:induction false} OnePart(s: string, c: char)
    ensures |Split(s, c)| == 1 <==> c !in s
    ensures c !in s ==> Split(s, c) == [s]
  {
    if s != "" {
      assert s == [s[0]] + s[1..];
      OnePart(s[1..], c);
    }
  }

  // ------------------------------------------------------------ Python

  function Dots(module_: string): (n: nat)
    ensures n <= |module_|
  {
    if module_ != "" && module_[0] == '.' then 1 + Dots(module_[1..]) else 0
  }

  function NonEmpty(parts: seq<string>): (r: seq<string>)
    ensures forall p | p in r :: p in parts
  {
    if parts == [] then []
    else (if parts[0] == "" then [] else [parts[0]]) + NonEmpty(parts[1..])
  }

  /** `base` with the segments below it. */
  function Under(base: string, segs: seq<string>): string {
    if segs == [] then base else Join(Under(base, segs[..|segs| - 1]), segs[|segs| - 1])
  }

  /** The longest module path first, then shorter ones. */
  function TryUnder(files: Paths, base: string, segs: seq<string>, k: nat): Option<string>
    requires k <= |segs|
    decreases k
  {
    var p := Under(base, segs[..k]);
    if k > 0 && p + ".py" in files then Some(p + ".py")
    else if Join(p, "__init__.py") in files then Some(Join(p, "__init__.py"))
    else if k == 0 then None
    else TryUnder(files, base, segs, k - 1)
  }

  function Up(dir: string, n: nat): string {
    if n == 0 then dir else DirOf(Up(dir, n - 1))
  }

  predicate Contains(root: string, from: string) {
    root == "" || (|root| + 1 <= |from| && from[..|root| + 1] == root + "/")
  }

  /** The first search root that answers; with `own`, only those holding the
      importing file. */
  function TryRoots(files: Paths, roots: seq<string>, from: string, segs: seq<string>, own: bool): Option<string> {
    if roots == [] then None
    else
      var here := if own && !Contains(roots[0], from) then None else TryUnder(files, roots[0], segs, |segs|);
      if here.Some? then here else TryRoots(files, roots[1..], from, segs, own)
  }

  function SegmentsOf(module_: string): seq<string> {
    NonEmpty(Split(module_[Dots(module_)..], '.'))
  }

  function Python(files: Paths, roots: seq<string>, from: string, module_: string): Option<string> {
    var dots, segs := Dots(module_), SegmentsOf(module_);
    if dots > 0 then TryUnder(files, Up(DirOf(from), dots - 1), segs, |segs|)
    else
      var own := TryRoots(files, roots, from, segs, true);
      if own.Some? then own else TryRoots(files, roots, from, segs, false)
  }

  // ------------------------------------------------------------ JavaScript and TypeScript

  /** `a/./b/../c` is `a/c`; a path does not leave the root. */
  function Resolved(parts: seq<string>): (stack: seq<string>) {
    if parts == [] then []
    else
      var stack, last := Resolved(parts[..|parts| - 1]), parts[|parts| - 1];
      if last == "" || last == "." then stack
      else if last == ".." then if stack == [] then [] else stack[..|stack| - 1]
      else stack + [last]
  }

  function Slashed(parts: seq<string>): string {
    if parts == [] then "" else if |parts| == 1 then parts[0]
    else Slashed(parts[..|parts| - 1]) + "/" + parts[|parts| - 1]
  }

  function Normalized(p: string): string {
    Slashed(Resolved(Split(p, '/')))
  }

  /** `normalize`: a stack pushed and popped. */
  method Normalize(p: string) returns (r: string)
    ensures r == Normalized(p)
  {
    var segs := Split(p, '/');
    var parts: seq<string> := [];
    for i := 0 to |segs|
      invariant parts == Resolved(segs[..i])
    {
      assert segs[..i + 1][..i] == segs[..i];
      var seg := segs[i];
      if seg == "" || seg == "." {
      } else if seg == ".." {
        if parts != [] {
          parts := parts[..|parts| - 1];
        }
      } else {
        parts := parts + [seg];
      }
    }
    assert segs[..|segs|] == segs;
    r := Slashed(parts);
  }

  const SWAPPED := [".js", ".jsx", ".mjs", ".cjs"]
  const EXTENSIONS := [".ts", ".tsx", ".d.ts", ".js", ".jsx", ".mjs", ".cjs", ".mts", ".cts"]
  const INDEXES := ["index.ts", "index.tsx", "index.d.ts", "index.js", "index.jsx", "index.mjs"]

  /** A name without the extension resolution may swap for another. */
  function JsStem(name: string): string {
    StemOf(name, SWAPPED)
  }

  function StemOf(name: string, exts: seq<string>): string {
    if exts == [] then name
    else if EndsWith(name, exts[0]) then Stripped(name, exts[0])
    else StemOf(name, exts[1..])
  }

  /** The first of `stem` with each ending that is a file. */
  function FirstOf(files: Paths, candidates: seq<string>): Option<string> {
    if candidates == [] then None
    else if candidates[0] in files then Some(candidates[0])
    else FirstOf(files, candidates[1..])
  }

  function ProbeAt(p: string, k: nat): string
    requires k <= |EXTENSIONS| + |INDEXES|
  {
    if k == 0 then p
    else if k <= |EXTENSIONS| then JsStem(p) + EXTENSIONS[k - 1]
    else Join(p, INDEXES[k - 1 - |EXTENSIONS|])
  }

  function Probes(p: string): seq<string> {
    seq(1 + |EXTENSIONS| + |INDEXES|, k requires 0 <= k <= |EXTENSIONS| + |INDEXES| => ProbeAt(p, k))
  }

  /** `js_probe`: the file itself, its stem with a source extension, or a
      directory's index. */
  function JsProbe(files: Paths, p: string): Option<string> {
    FirstOf(files, Probes(p))
  }

  predicate StartsWith(s: string, prefix: string) {
    |prefix| <= |s| && s[..|prefix|] == prefix
  }

  predicate Relative(module_: string) {
    StartsWith(module_, "./") || StartsWith(module_, "../") || module_ == "." || module_ == ".."
  }

  /** The relative branch of `js`. */
  function JsRelative(files: Paths, from: string, module_: string): Option<string>
    requires Relative(module_)
  {
    JsProbe(files, Target(from, module_))
  }

  // ------------------------------------------------------------ the filter

  datatype Names = NoNames | These(names: set<string>) | AnyName

  function Add(n: Names, name: string): Names {
    match n
    case NoNames => These({name})
    case These(s) => These(s + {name})
    case AnyName => AnyName
  }

  predicate HasAny(n: Names, names: seq<string>) {
    n.AnyName? || (n.These? && exists i :: 0 <= i < |names| && names[i] in n.names)
  }

  datatype Reach = Reach(py: Names, js: Names)

  predicate ScriptExtension(ext: string) {
    ext in {"ts", "tsx", "js", "jsx", "mjs", "cjs", "mts", "cts"}
  }

  /** What precedes the last `.`, when there is one. */
  function StemAndExt(name: string): Option<(string, string)> {
    var i := LastAfter(name, '.');
    if i == 0 then None else Some((name[..i - 1], name[i..]))
  }

  function WithoutD(stem: string): string {
    if EndsWith(stem, ".d") then Stripped(stem, ".d") else stem
  }

  function AddPy(py: Names, path: string): Names {
    var name := LastName(path);
    if !EndsWith(name, ".py") then py
    else if name == "__init__.py" then AnyName
    else Add(py, Stripped(name, ".py"))
  }

  function AddJs(js: Names, path: string): Names {
    var name := LastName(path);
    var named := Add(js, name);
    var e := StemAndExt(name);
    var stemmed := if e.Some? && ScriptExtension(e.value.1) then Add(Add(named, WithoutD(e.value.0)), e.value.0) else named;
    if StartsWith(name, "index.") then Add(stemmed, LastName(DirOf(path))) else stemmed
  }

  function ReachOf(changed: seq<string>): Reach {
    if changed == [] then Reach(NoNames, NoNames)
    else
      var r, path := ReachOf(changed[..|changed| - 1]), changed[|changed| - 1];
      Reach(AddPy(r.py, path), AddJs(r.js, path))
  }

  /** `Reach::of`, the names filled in one changed file at a time. */
  method BuildReach(changed: seq<string>) returns (r: Reach)
    ensures r == ReachOf(changed)
    ensures forall x :: Holds(r.py, x) <==> exists path :: path in changed && PyAdds(path, x)
    ensures forall x :: Holds(r.js, x) <==> exists path :: path in changed && Adds(path, x)
  {
    r := Reach(NoNames, NoNames);
    for i := 0 to |changed|
      invariant r == ReachOf(changed[..i])
    {
      assert changed[..i + 1][..i] == changed[..i];
      r := Reach(AddPy(r.py, changed[i]), AddJs(r.js, changed[i]));
    }
    assert changed[..|changed|] == changed;
    forall x ensures Holds(r.py, x) <==> exists path :: path in changed && PyAdds(path, x) {
      PyHeldExactly(changed, x);
    }
    forall x ensures Holds(r.js, x) <==> exists path :: path in changed && Adds(path, x) {
      JsHeldExactly(changed, x);
    }
  }

  predicate MayMovePython(r: Reach, module_: string) {
    HasAny(r.py, Split(module_, '.'))
  }

  /** The module ends in a name of its own, not in a directory step. */
  predicate PlainEnd(module_: string) {
    Tail(module_, '/') != "" && Tail(module_, '/') != "." && Tail(module_, '/') != ".."
  }

  /** What a relative import probes from. */
  function Target(from: string, module_: string): string {
    Normalized(Join(DirOf(from), module_))
  }

  /** The names looked up for it. */
  function LookedNames(from: string, module_: string): seq<string> {
    if PlainEnd(module_) then [Tail(module_, '/'), JsStem(Tail(module_, '/'))] else [LastName(Target(from, module_))]
  }

  predicate MayMoveRelative(r: Reach, from: string, module_: string)
    requires Relative(module_)
  {
    HasAny(r.js, LookedNames(from, module_))
  }

  // ------------------------------------------------------------ what the filter holds

  predicate Holds(n: Names, name: string) {
    n.AnyName? || (n.These? && name in n.names)
  }

  /** Names are only ever added. */
  lemma AddKeeps(r: Reach, path: string, x: string)
    ensures Holds(r.py, x) ==> Holds(AddPy(r.py, path), x)
    ensures r.py.AnyName? ==> AddPy(r.py, path).AnyName?
    ensures Holds(r.js, x) ==> Holds(AddJs(r.js, path), x)
  {
  }

  /** A changed Python file's stem is held; with a package's own file, every name. */
  lemma {:induction false} PyHeld(changed: seq<string>, path: string)
    requires path in changed && EndsWith(LastName(path), ".py")
    ensures Holds(ReachOf(changed).py, Stripped(LastName(path), ".py"))
    ensures LastName(path) == "__init__.py" ==> ReachOf(changed).py.AnyName?
  {
    var n := |changed| - 1;
    assert changed == changed[..n] + [changed[n]];
    if path in changed[..n] {
      PyHeld(changed[..n], path);
      AddKeeps(ReachOf(changed[..n]), changed[n], Stripped(LastName(path), ".py"));
    }
  }

  /** The names a changed file adds for scripts. */
  ghost predicate Adds(path: string, x: string) {
    var name := LastName(path);
    var e := StemAndExt(name);
    || x == name
    || (e.Some? && ScriptExtension(e.value.1) && (x == e.value.0 || x == WithoutD(e.value.0)))
    || (StartsWith(name, "index.") && x == LastName(DirOf(path)))
  }

  lemma AddJsHolds(js: Names, path: string, x: string)
    requires Adds(path, x)
    ensures Holds(AddJs(js, path), x)
  {
  }

  lemma {:induction false} JsHeld(changed: seq<string>, path: string, x: string)
    requires path in changed && Adds(path, x)
    ensures Holds(ReachOf(changed).js, x)
  {
    var n := |changed| - 1;
    assert changed == changed[..n] + [changed[n]];
    if path in changed[..n] {
      JsHeld(changed[..n], path, x);
      AddKeeps(ReachOf(changed[..n]), changed[n], x);
    } else {
      AddJsHolds(ReachOf(changed[..n]).js, path, x);
    }
  }

  /** The filter holds exactly the names some changed file adds. */
  lemma {:induction false} JsHeldExactly(changed: seq<string>, x: string)
    ensures Holds(ReachOf(changed).js, x) <==> exists path :: path in changed && Adds(path, x)
    ensures !ReachOf(changed).js.AnyName?
  {
    if changed != [] {
      var n := |changed| - 1;
      assert changed == changed[..n] + [changed[n]];
      JsHeldExactly(changed[..n], x);
      AddJsExactly(ReachOf(changed[..n]).js, changed[n], x);
      if path :| path in changed && Adds(path, x) {
        JsHeld(changed, path, x);
      }
    }
  }

  lemma AddJsExactly(js: Names, path: string, x: string)
    requires !js.AnyName?
    ensures !AddJs(js, path).AnyName? && (Holds(AddJs(js, path), x) <==> Holds(js, x) || Adds(path, x))
  {
  }

  /** A changed file that could answer an import with this module segment. */
  ghost predicate PyAdds(path: string, x: string) {
    LastName(path) == "__init__.py" || LastName(path) == x + ".py"
  }

  lemma AddPyExactly(py: Names, path: string, x: string)
    ensures Holds(AddPy(py, path), x) <==> Holds(py, x) || PyAdds(path, x)
  {
    var name := LastName(path);
    assert EndsWith("__init__.py", ".py");
    if EndsWith(name, ".py") {
      assert name == Stripped(name, ".py") + ".py";
    }
    if name == x + ".py" {
      assert EndsWith(name, ".py") && Stripped(name, ".py") == x;
    }
  }

  /** The same for Python: a changed file of that name, or any package's own file. */
  lemma {:induction false} PyHeldExactly(changed: seq<string>, x: string)
    ensures Holds(ReachOf(changed).py, x) <==> exists path :: path in changed && PyAdds(path, x)
  {
    if changed != [] {
      var n := |changed| - 1;
      assert changed == changed[..n] + [changed[n]];
      PyHeldExactly(changed[..n], x);
      AddPyExactly(ReachOf(changed[..n]).py, changed[n], x);
      if path :| path in changed && PyAdds(path, x) {
        assert path in changed[..n] || path == changed[n];
      }
    }
  }

  /** The changed files are where the two file sets differ. */
  ghost predicate Covers(changed: seq<string>, before: Paths, after: Paths) {
    forall p | (p in before) != (p in after) :: p in changed
  }

  // ------------------------------------------------------------ imports and what they probe

  datatype Import = PyImport(module_: string) | ScriptImport(module_: string)

  predicate Modelled(im: Import) {
    im.ScriptImport? ==> Relative(im.module_)
  }

  predicate MayMove(r: Reach, from: string, im: Import)
    requires Modelled(im)
  {
    match im
    case PyImport(m) => MayMovePython(r, m)
    case ScriptImport(m) => MayMoveRelative(r, from, m)
  }

  /** The file an import of `from` refers to; never `from` itself. */
  function ResolveModule(files: Paths, roots: seq<string>, from: string, im: Import): Option<string>
    requires Modelled(im)
  {
    var r := match im
      case PyImport(m) => Python(files, roots, from, m)
      case ScriptImport(m) => JsRelative(files, from, m);
    if r == Some(from) then None else r
  }

  lemma {:induction false} FirstJoin(files: Paths, xs: seq<string>, ys: seq<string>)
    ensures FirstOf(files, xs + ys) == if FirstOf(files, xs).Some? then FirstOf(files, xs) else FirstOf(files, ys)
  {
    if xs == [] {
      assert xs + ys == ys;
    } else {
      assert (xs + ys)[1..] == xs[1..] + ys;
      FirstJoin(files, xs[1..], ys);
    }
  }

  /** What `TryUnder` tries, in order. */
  function Downward(base: string, segs: seq<string>, k: nat): seq<string>
    requires k <= |segs|
    decreases k
  {
    var p := Under(base, segs[..k]);
    if k == 0 then [Join(p, "__init__.py")]
    else [p + ".py", Join(p, "__init__.py")] + Downward(base, segs, k - 1)
  }

  lemma {:induction false} DownwardFirst(files: Paths, base: string, segs: seq<string>, k: nat)
    requires k <= |segs|
    ensures TryUnder(files, base, segs, k) == FirstOf(files, Downward(base, segs, k))
    decreases k
  {
    if k > 0 {
      var p := Under(base, segs[..k]);
      DownwardFirst(files, base, segs, k - 1);
      FirstJoin(files, [p + ".py", Join(p, "__init__.py")], Downward(base, segs, k - 1));
      assert [p + ".py", Join(p, "__init__.py")][1..] == [Join(p, "__init__.py")];
    }
  }

  function RootProbes(roots: seq<string>, from: string, segs: seq<string>, own: bool): seq<string> {
    if roots == [] then []
    else
      var here := if own && !Contains(roots[0], from) then [] else Downward(roots[0], segs, |segs|);
      here + RootProbes(roots[1..], from, segs, own)
  }

  lemma {:induction false} RootsFirst(files: Paths, roots: seq<string>, from: string, segs: seq<string>, own: bool)
    ensures TryRoots(files, roots, from, segs, own) == FirstOf(files, RootProbes(roots, from, segs, own))
  {
    if roots != [] {
      var here := if own && !Contains(roots[0], from) then [] else Downward(roots[0], segs, |segs|);
      DownwardFirst(files, roots[0], segs, |segs|);
      RootsFirst(files, roots[1..], from, segs, own);
      FirstJoin(files, here, RootProbes(roots[1..], from, segs, own));
    }
  }

  /** Every path a Python import probes, in order. */
  function PyProbes(roots: seq<string>, from: string, module_: string): seq<string> {
    var dots, segs := Dots(module_), SegmentsOf(module_);
    if dots > 0 then Downward(Up(DirOf(from), dots - 1), segs, |segs|)
    else RootProbes(roots, from, segs, true) + RootProbes(roots, from, segs, false)
  }

  lemma PythonFirst(files: Paths, roots: seq<string>, from: string, module_: string)
    ensures Python(files, roots, from, module_) == FirstOf(files, PyProbes(roots, from, module_))
  {
    var dots, segs := Dots(module_), SegmentsOf(module_);
    if dots > 0 {
      DownwardFirst(files, Up(DirOf(from), dots - 1), segs, |segs|);
    } else {
      RootsFirst(files, roots, from, segs, true);
      RootsFirst(files, roots, from, segs, false);
      FirstJoin(files, RootProbes(roots, from, segs, true), RootProbes(roots, from, segs, false));
    }
  }

  function Probed(roots: seq<string>, from: string, im: Import): seq<string> {
    match im
    case PyImport(m) => PyProbes(roots, from, m)
    case ScriptImport(m) => Probes(Target(from, m))
  }

  /** The probes before the importing file itself. */
  function UpTo(xs: seq<string>, from: string): (r: seq<string>)
    ensures from !in r
  {
    if xs == [] || xs[0] == from then [] else [xs[0]] + UpTo(xs[1..], from)
  }

  lemma {:induction false} UpToHas(xs: seq<string>, from: string, i: nat)
    requires i < |xs| && from !in xs[..i + 1]
    ensures xs[i] in UpTo(xs, from)
  {
    assert xs[0] in xs[..i + 1];
    if i > 0 {
      assert forall y | y in xs[1..][..i] :: y in xs[..i + 1];
      UpToHas(xs[1..], from, i - 1);
    }
  }

  lemma {:induction false} UpToOf(xs: seq<string>, from: string, x: string)
    requires x in UpTo(xs, from)
    ensures x in xs
  {
    if x != xs[0] {
      UpToOf(xs[1..], from, x);
    }
  }

  /** The importing file, which is always there, ends the search. */
  lemma {:induction false} SelfEnds(files: Paths, xs: seq<string>, from: string)
    requires from in files
    ensures FirstOf(files, UpTo(xs, from)) == if FirstOf(files, xs) == Some(from) then None else FirstOf(files, xs)
  {
    if xs != [] && xs[0] != from {
      SelfEnds(files, xs[1..], from);
      assert UpTo(xs, from)[1..] == UpTo(xs[1..], from);
    }
  }

  /** An import resolves to the first of its probes that is there, if that comes
      before the importing file itself. */
  lemma ResolvesFirst(files: Paths, roots: seq<string>, from: string, im: Import)
    requires Modelled(im) && from in files
    ensures ResolveModule(files, roots, from, im) == FirstOf(files, UpTo(Probed(roots, from, im), from))
  {
    SelfEnds(files, Probed(roots, from, im), from);
    match im
    case PyImport(m) => PythonFirst(files, roots, from, m);
    case ScriptImport(m) =>
  }

  // ------------------------------------------------------------ what the filter looks up

  /** A changed file of this name lets the import through the filter. */
  ghost predicate Named(from: string, im: Import, path: string)
  {
    match im
    case PyImport(m) => exists seg :: seg in Split(m, '.') && PyAdds(path, seg)
    case ScriptImport(m) =>
      if PlainEnd(m) then Adds(path, Tail(m, '/')) || Adds(path, JsStem(Tail(m, '/')))
      else Adds(path, LastName(Target(from, m)))
  }

  lemma HasAnyHolds(n: Names, names: seq<string>)
    requires names != []
    ensures HasAny(n, names) <==> exists x :: x in names && Holds(n, x)
  {
    assert names[0] in names && (n.AnyName? ==> Holds(n, names[0]));
    assert forall i | 0 <= i < |names| && n.These? && names[i] in n.names :: Holds(n, names[i]);
  }

  lemma PythonMeans(changed: seq<string>, from: string, module_: string)
    ensures MayMovePython(ReachOf(changed), module_) <==>
      exists path :: path in changed && Named(from, PyImport(module_), path)
  {
    var n := ReachOf(changed).py;
    HasAnyHolds(n, Split(module_, '.'));
    if x :| x in Split(module_, '.') && Holds(n, x) {
      PyHeldExactly(changed, x);
      var path :| path in changed && PyAdds(path, x);
      assert Named(from, PyImport(module_), path);
    }
    if path :| path in changed && Named(from, PyImport(module_), path) {
      var seg :| seg in Split(module_, '.') && PyAdds(path, seg);
      PyHeldExactly(changed, seg);
    }
  }

  lemma ScriptMeans(changed: seq<string>, names: seq<string>)
    requires names != []
    ensures HasAny(ReachOf(changed).js, names) <==> exists path :: path in changed && AddsOne(path, names)
  {
    var n := ReachOf(changed).js;
    HasAnyHolds(n, names);
    if x :| x in names && Holds(n, x) {
      JsHeldExactly(changed, x);
      var path :| path in changed && Adds(path, x);
      assert AddsOne(path, names);
    }
    if path :| path in changed && AddsOne(path, names) {
      var x :| x in names && Adds(path, x);
      JsHeldExactly(changed, x);
    }
  }

  ghost predicate AddsOne(path: string, names: seq<string>) {
    exists x :: x in names && Adds(path, x)
  }

  /** The filter lets an import through exactly when some changed file is named so. */
  lemma MayMoveMeans(changed: seq<string>, from: string, im: Import)
    requires Modelled(im)
    ensures MayMove(ReachOf(changed), from, im) <==> exists path :: path in changed && Named(from, im, path)
  {
    match im {
      case PyImport(m) =>
        PythonMeans(changed, from, m);
      case ScriptImport(m) =>
        ScriptMeans(changed, LookedNames(from, m));
        forall path ensures AddsOne(path, LookedNames(from, m)) <==> Named(from, im, path) {
          NamesAdded(path, from, m);
        }
    }
  }

  lemma NamesAdded(path: string, from: string, module_: string)
    ensures AddsOne(path, LookedNames(from, module_)) <==> Named(from, ScriptImport(module_), path)
  {
    var names := LookedNames(from, module_);
    assert names[0] in names && (PlainEnd(module_) ==> names[1] in names);
  }

  /** The filter looks up every path that could answer the import. */
  ghost predicate Looked(roots: seq<string>, from: string, im: Import) {
    forall x | x in UpTo(Probed(roots, from, im), from) :: Named(from, im, x)
  }

  lemma {:induction false} FirstStays(before: Paths, after: Paths, xs: seq<string>)
    requires forall x | x in xs :: x in before <==> x in after
    ensures FirstOf(before, xs) == FirstOf(after, xs)
  {
    if xs != [] {
      FirstStays(before, after, xs[1..]);
    }
  }

  /** Such an import, rejected by the filter, resolves as before. */
  lemma {:induction false} ImportStays(changed: seq<string>, before: Paths, after: Paths, roots: seq<string>,
                                       from: string, im: Import)
    requires Covers(changed, before, after) && from in before && from in after
    requires Modelled(im) && Looked(roots, from, im) && !MayMove(ReachOf(changed), from, im)
    ensures ResolveModule(before, roots, from, im) == ResolveModule(after, roots, from, im)
  {
    MayMoveMeans(changed, from, im);
    ResolvesFirst(before, roots, from, im);
    ResolvesFirst(after, roots, from, im);
    FirstStays(before, after, UpTo(Probed(roots, from, im), from));
  }

  // ------------------------------------------------------------ exactly when the filter is right

  /** `a` lies in a directory of the name `dir`. */
  predicate Below(a: string, dir: string) {
    StartsWith(a, dir + "/")
  }

  /** The files of a tree: none is a directory another lies in. */
  ghost predicate Tree(files: Paths) {
    forall a, b | a in files && b in files :: !Below(a, b)
  }

  /** No change that the filter rejects moves the import, with the importing file
      there before and after. */
  ghost predicate Safe(roots: seq<string>, from: string, im: Import)
    requires Modelled(im)
  {
    forall changed, before, after ::
      Covers(changed, before, after) && Tree(before) && Tree(after) && from in before && from in after
      && !MayMove(ReachOf(changed), from, im) ==>
        ResolveModule(before, roots, from, im) == ResolveModule(after, roots, from, im)
  }

  /** Every path probed before the importing file is looked up, or cannot be a file
      beside it. */
  ghost predicate Covered(roots: seq<string>, from: string, im: Import) {
    forall x | x in UpTo(Probed(roots, from, im), from) :: Named(from, im, x) || Below(x, from) || Below(from, x)
  }

  lemma CoveredStays(changed: seq<string>, before: Paths, after: Paths, roots: seq<string>, from: string, im: Import)
    requires Covers(changed, before, after) && Tree(before) && Tree(after) && from in before && from in after
    requires Modelled(im) && Covered(roots, from, im) && !MayMove(ReachOf(changed), from, im)
    ensures ResolveModule(before, roots, from, im) == ResolveModule(after, roots, from, im)
  {
    MayMoveMeans(changed, from, im);
    ResolvesFirst(before, roots, from, im);
    ResolvesFirst(after, roots, from, im);
    FirstStays(before, after, UpTo(Probed(roots, from, im), from));
  }

  lemma {:induction false} NoneOf(files: Paths, xs: seq<string>)
    requires forall x | x in xs :: x !in files
    ensures FirstOf(files, xs) == None
  {
    if xs != [] {
      NoneOf(files, xs[1..]);
    }
  }

  lemma {:induction false} SomeOf(files: Paths, xs: seq<string>, x: string)
    requires x in xs && x in files
    ensures FirstOf(files, xs).Some?
  {
    if xs[0] !in files {
      SomeOf(files, xs[1..], x);
    }
  }

  /** Adding a file that is probed and not looked up moves the import past the filter. */
  lemma ProbeMoves(roots: seq<string>, from: string, im: Import, x: string)
    requires Modelled(im) && x in UpTo(Probed(roots, from, im), from)
    requires !Named(from, im, x) && !Below(x, from) && !Below(from, x)
    ensures Covers([x], {from}, {from, x}) && Tree({from}) && Tree({from, x})
    ensures !MayMove(ReachOf([x]), from, im)
    ensures ResolveModule({from}, roots, from, im) != ResolveModule({from, x}, roots, from, im)
  {
    var xs := UpTo(Probed(roots, from, im), from);
    MayMoveMeans([x], from, im);
    ResolvesFirst({from}, roots, from, im);
    ResolvesFirst({from, x}, roots, from, im);
    NoneOf({from}, xs);
    SomeOf({from, x}, xs, x);
    TwoFiles(from, x);
  }

  lemma TwoFiles(a: string, b: string)
    requires !Below(a, b) && !Below(b, a)
    ensures Tree({a}) && Tree({a, b}) && Covers([b], {a}, {a, b})
  {
  }

  /** The filter is right about an import exactly when it looks up every path probed
      before the importing file that could be a file of the tree. */
  lemma FilterExactly(roots: seq<string>, from: string, im: Import)
    requires Modelled(im)
    ensures Safe(roots, from, im) <==> Covered(roots, from, im)
  {
    if Covered(roots, from, im) {
      forall changed, before, after | Covers(changed, before, after) && Tree(before) && Tree(after)
          && from in before && from in after && !MayMove(ReachOf(changed), from, im)
        ensures ResolveModule(before, roots, from, im) == ResolveModule(after, roots, from, im)
      {
        CoveredStays(changed, before, after, roots, from, im);
      }
    } else {
      var x :| x in UpTo(Probed(roots, from, im), from) && !Named(from, im, x) && !Below(x, from) && !Below(from, x);
      ProbeMoves(roots, from, im, x);
    }
  }

  // ------------------------------------------------------------ Python

  lemma {:induction false} SplitChars(s: string, c: char, part: string, x: char)
    requires part in Split(s, c) && x in part
    ensures x in s
  {
    if s != "" {
      var rest := Split(s[1..], c);
      assert s == [s[0]] + s[1..];
      if s[0] == c {
        SplitChars(s[1..], c, part, x);
      } else if part == [s[0]] + rest[0] {
        if x != s[0] {
          SplitChars(s[1..], c, rest[0], x);
        }
      } else {
        SplitChars(s[1..], c, part, x);
      }
    }
  }

  /** Leading dots add only empty parts. */
  lemma {:induction false} DotsSplit(module_: string, part: string)
    requires part in Split(module_[Dots(module_)..], '.')
    ensures part in Split(module_, '.')
  {
    if module_ != "" && module_[0] == '.' {
      assert module_[Dots(module_)..] == module_[1..][Dots(module_[1..])..];
      DotsSplit(module_[1..], part);
    } else {
      assert module_[0..] == module_;
    }
  }

  lemma JoinSuffix(dir: string, name: string, suffix: string)
    ensures Join(dir, name) + suffix == Join(dir, name + suffix)
  {
    assert dir + "/" + name + suffix == dir + "/" + (name + suffix);
  }

  lemma TailPlus(s: string, c: char, end: string)
    requires c !in end
    ensures Tail(s + end, c) == Tail(s, c) + end
  {
    var i := LastAfter(s, c);
    TailFree(s, c);
    assert (s + end)[i..] == s[i..] + end;
    LastAfterIs(s + end, c, i);
  }

  /** The filter looks the segment's own file name up, or every package's. */
  predicate KnownName(seg: string, module_: string) {
    Tail(seg, '/') in Split(module_, '.') || Tail(seg, '/') == "__init__"
  }

  predicate PyKnown(module_: string) {
    forall seg | seg in Split(module_, '.') :: KnownName(seg, module_)
  }

  lemma ModuleName(dir: string, seg: string)
    ensures LastName(Join(dir, seg) + ".py") == Tail(seg, '/') + ".py"
    ensures EndsWith(Tail(seg, '/') + ".py", ".py") && Stripped(Tail(seg, '/') + ".py", ".py") == Tail(seg, '/')
  {
    JoinSuffix(dir, seg, ".py");
    JoinedTail(dir, seg + ".py");
    TailPlus(seg, '/', ".py");
  }

  lemma {:induction false} KeptPart(parts: seq<string>, part: string)
    requires part in parts && part != ""
    ensures part in NonEmpty(parts)
  {
    if parts[0] != part {
      KeptPart(parts[1..], part);
    }
  }

  lemma {:induction false} SplitDots(module_: string, part: string)
    requires part in Split(module_, '.') && part != ""
    ensures part in Split(module_[Dots(module_)..], '.')
  {
    if module_ != "" && module_[0] == '.' {
      assert module_[Dots(module_)..] == module_[1..][Dots(module_[1..])..];
      SplitDots(module_[1..], part);
    } else {
      assert module_[0..] == module_;
    }
  }

  lemma SameStem(a: string, b: string, end: string)
    ensures a + end == b + end ==> a == b
  {
    assert (a + end)[..|a|] == a && (b + end)[..|b|] == b;
  }

  /** The filter looks a segment's file up exactly when it knows the name. */
  lemma FileNamed(path: string, seg: string, module_: string)
    requires LastName(path) == Tail(seg, '/') + ".py"
    ensures Named("", PyImport(module_), path) <==> KnownName(seg, module_)
  {
    var last, parts := Tail(seg, '/'), Split(module_, '.');
    assert "__init__" + ".py" == "__init__.py";
    SameStem(last, "__init__", ".py");
    if part :| part in parts && PyAdds(path, part) {
      SameStem(last, part, ".py");
    }
    if KnownName(seg, module_) {
      assert PyAdds(path, if last in parts then last else parts[0]);
    }
  }

  lemma SegmentAt(module_: string, seg: string) returns (i: nat)
    requires seg in Split(module_, '.') && !KnownName(seg, module_)
    ensures i < |SegmentsOf(module_)| && SegmentsOf(module_)[i] == seg
  {
    assert Tail("", '/') == "";
    SplitDots(module_, seg);
    KeptPart(Split(module_[Dots(module_)..], '.'), seg);
    i :| 0 <= i < |SegmentsOf(module_)| && SegmentsOf(module_)[i] == seg;
  }

  lemma UnderName(base: string, segs: seq<string>, i: nat)
    requires i < |segs|
    ensures LastName(Under(base, segs[..i + 1]) + ".py") == Tail(segs[i], '/') + ".py"
  {
    assert segs[..i + 1][..i] == segs[..i];
    ModuleName(Under(base, segs[..i]), segs[i]);
  }

  lemma {:induction false} DownwardHas(base: string, segs: seq<string>, k: nat, x: string) returns (i: nat)
    requires k <= |segs| && x in Downward(base, segs, k)
    ensures i <= k
    ensures x == Join(Under(base, segs[..i]), "__init__.py") || (i > 0 && x == Under(base, segs[..i]) + ".py")
    decreases k
  {
    i := k;
    if k > 0 && x in Downward(base, segs, k - 1) {
      i := DownwardHas(base, segs, k - 1, x);
    }
  }

  /** What is tried below a base is looked up, if every segment's file name is. */
  lemma DownwardNamed(base: string, segs: seq<string>, module_: string, x: string)
    requires (forall seg | seg in segs :: KnownName(seg, module_)) && x in Downward(base, segs, |segs|)
    ensures Named("", PyImport(module_), x)
  {
    var i := DownwardHas(base, segs, |segs|, x);
    if x == Join(Under(base, segs[..i]), "__init__.py") {
      JoinName(Under(base, segs[..i]), "__init__.py");
      assert Split(module_, '.')[0] in Split(module_, '.') && PyAdds(x, Split(module_, '.')[0]);
    } else {
      UnderName(base, segs, i - 1);
      assert segs[i - 1] in segs;
      FileNamed(x, segs[i - 1], module_);
    }
  }

  lemma {:induction false} RootsNamed(roots: seq<string>, from: string, segs: seq<string>, own: bool, module_: string,
                                      x: string)
    requires (forall seg | seg in segs :: KnownName(seg, module_)) && x in RootProbes(roots, from, segs, own)
    ensures Named("", PyImport(module_), x)
  {
    if x in RootProbes(roots[1..], from, segs, own) {
      RootsNamed(roots[1..], from, segs, own, module_, x);
    } else {
      DownwardNamed(roots[0], segs, module_, x);
    }
  }

  /** Every probe of a module whose segments' file names the filter looks up is
      looked up. */
  lemma PythonLooked(roots: seq<string>, from: string, module_: string)
    requires PyKnown(module_)
    ensures Looked(roots, from, PyImport(module_))
  {
    var dots, segs := Dots(module_), SegmentsOf(module_);
    forall seg | seg in segs ensures KnownName(seg, module_) {
      DotsSplit(module_, seg);
    }
    forall x | x in UpTo(PyProbes(roots, from, module_), from) ensures Named("", PyImport(module_), x) {
      UpToOf(PyProbes(roots, from, module_), from, x);
      if dots > 0 {
        DownwardNamed(Up(DirOf(from), dots - 1), segs, module_, x);
      } else {
        RootsNamed(roots, from, segs, !(x in RootProbes(roots, from, segs, false)), module_, x);
      }
    }
  }

  lemma {:induction false} DownwardFile(base: string, segs: seq<string>, k: nat, i: nat)
    requires i < k <= |segs|
    ensures Under(base, segs[..i + 1]) + ".py" in Downward(base, segs, k)
    decreases k
  {
    if i + 1 < k {
      DownwardFile(base, segs, k - 1, i);
    }
  }

  /** The file a segment names below the first base tried. */
  lemma SegmentProbed(roots: seq<string>, from: string, module_: string, seg: string) returns (x: string)
    requires roots != [] && seg in Split(module_, '.') && !KnownName(seg, module_)
    ensures x in PyProbes(roots, from, module_) && !Named("", PyImport(module_), x)
  {
    var i := SegmentAt(module_, seg);
    var segs := SegmentsOf(module_);
    var base := if Dots(module_) > 0 then Up(DirOf(from), Dots(module_) - 1) else roots[0];
    x := Under(base, segs[..i + 1]) + ".py";
    DownwardFile(base, segs, |segs|, i);
    UnderName(base, segs, i);
    FileNamed(x, seg, module_);
    if Dots(module_) == 0 {
      assert x in RootProbes(roots, from, segs, false);
    }
  }

  /** For a file apart from everything the module probes, the filter is right exactly
      when it looks the file name of every segment up. (The top of the tree is
      always a search root.) */
  lemma PythonExactly(roots: seq<string>, from: string, module_: string)
    requires roots != []
    ensures PyKnown(module_) ==> Safe(roots, from, PyImport(module_))
    ensures (forall x | x in PyProbes(roots, from, module_) :: x != from && !Below(x, from) && !Below(from, x)) ==>
      (Safe(roots, from, PyImport(module_)) <==> PyKnown(module_))
  {
    FilterExactly(roots, from, PyImport(module_));
    if PyKnown(module_) {
      PythonLooked(roots, from, module_);
    } else {
      var seg :| seg in Split(module_, '.') && !KnownName(seg, module_);
      var x := SegmentProbed(roots, from, module_, seg);
      UpToAll(PyProbes(roots, from, module_), from);
    }
  }

  lemma {:induction false} UpToAll(xs: seq<string>, from: string)
    ensures from !in xs ==> UpTo(xs, from) == xs
  {
    if xs != [] {
      UpToAll(xs[1..], from);
      assert xs == [xs[0]] + xs[1..];
    }
  }

  // ------------------------------------------------------------ extracted module text

  predicate Blank(c: char) {
    c in {' ', '\t', '\n', '\r', '\U{000C}'}
  }

  /** Word characters, dots and stars. */
  predicate ModuleChar(c: char) {
    'a' <= c <= 'z' || 'A' <= c <= 'Z' || '0' <= c <= '9' || c == '_' || c == '$' || c == '.' || c == '*'
  }

  /** `ident_at`: the longest run of module characters after the blanks; every
      such text is one the filter is right about. */
  method IdentAt(t: string, start: nat) returns (s: nat, e: nat)
    requires start <= |t|
    ensures start <= s <= e <= |t|
    ensures (forall i | start <= i < s :: Blank(t[i])) && (s < |t| ==> !Blank(t[s]))
    ensures (forall i | s <= i < e :: ModuleChar(t[i])) && (e < |t| ==> !ModuleChar(t[e]))
    ensures PyKnown(t[s..e])
  {
    var i := start;
    while i < |t| && Blank(t[i])
      invariant start <= i <= |t|
      invariant forall k | start <= k < i :: Blank(t[k])
    {
      i := i + 1;
    }
    s := i;
    while i < |t| && ModuleChar(t[i])
      invariant s <= i <= |t|
      invariant forall k | s <= k < i :: ModuleChar(t[k])
    {
      i := i + 1;
    }
    e := i;
    SlashFreeIsKnown(t[s..e]);
  }

  lemma SlashFreeIsKnown(module_: string)
    requires '/' !in module_
    ensures PyKnown(module_)
  {
    forall seg | seg in Split(module_, '.') ensures KnownName(seg, module_) {
      if '/' in seg {
        SplitChars(module_, '.', seg, '/');
      }
      WholeTail(seg, '/');
    }
  }

  // ------------------------------------------------------------ relative script imports

  lemma {:induction false} SlashedName(parts: seq<string>, last: string)
    requires '/' !in last && last != ""
    ensures LastName(Slashed(parts + [last])) == last && Slashed(parts + [last]) != ""
  {
    WholeTail(last, '/');
    var all := parts + [last];
    assert all[..|all| - 1] == parts;
    if parts != [] {
      TailAfter(Slashed(parts), '/', last);
    }
  }

  /** Normalizing keeps a plain last name. */
  lemma NormalizedName(p: string)
    requires PlainEnd(p)
    ensures LastName(Normalized(p)) == Tail(p, '/') && Normalized(p) != ""
  {
    var parts := Split(p, '/');
    SplitLast(p, '/');
    TailFree(p, '/');
    assert Resolved(parts) == Resolved(parts[..|parts| - 1]) + [Tail(p, '/')];
    SlashedName(Resolved(parts[..|parts| - 1]), Tail(p, '/'));
  }

  lemma JoinedTail(dir: string, module_: string)
    ensures Tail(Join(dir, module_), '/') == Tail(module_, '/')
  {
    if dir != "" {
      TailAfter(dir, '/', module_);
    }
  }

  /** An ending without slashes does not reach across one. */
  lemma EndKeepsDir(dir: string, name: string, ext: string)
    requires '/' !in ext && (dir != "" ==> dir[|dir| - 1] == '/')
    ensures EndsWith(dir + name, ext) <==> EndsWith(name, ext)
    ensures EndsWith(name, ext) ==> Stripped(dir + name, ext) == dir + Stripped(name, ext)
  {
    var p := dir + name;
    var k := |p| - |ext|;
    if |ext| <= |name| {
      assert p[k..] == name[|name| - |ext|..];
      assert p[..k] == dir + name[..|name| - |ext|];
    } else if |ext| <= |p| {
      assert p[k..][|dir| - 1 - k] == p[|dir| - 1] == '/';
      assert '/' in p[k..];
    }
  }

  /** Swapping an extension leaves the directory alone. */
  lemma {:induction false} StemKeepsDir(dir: string, name: string, exts: seq<string>)
    requires forall i | 0 <= i < |exts| :: '/' !in exts[i]
    requires dir != "" ==> dir[|dir| - 1] == '/'
    ensures StemOf(dir + name, exts) == dir + StemOf(name, exts)
  {
    if exts != [] {
      StemKeepsDir(dir, name, exts[1..]);
      EndKeepsDir(dir, name, exts[0]);
    }
  }

  /** An ending is a middle and an extension without dots. */
  ghost predicate Ending(ext: string, mid: string, e: string) {
    ext == mid + "." + e && (mid == "" || mid == ".d") && ScriptExtension(e) && '.' !in e
  }

  lemma Endings(i: nat) returns (mid: string, e: string)
    requires i < |EXTENSIONS|
    ensures Ending(EXTENSIONS[i], mid, e) && '/' !in EXTENSIONS[i]
  {
    mid := if i == 2 then ".d" else "";
    e := if i == 0 || i == 2 then "ts" else if i == 1 then "tsx" else if i == 3 then "js" else if i == 4 then "jsx"
         else if i == 5 then "mjs" else if i == 6 then "cjs" else if i == 7 then "mts" else "cts";
    assert EXTENSIONS[i] == mid + "." + e;
  }

  /** A file named by a stem and an ending adds the stem. */
  lemma StemAdded(path: string, t: string, ext: string, mid: string, e: string)
    requires LastName(path) == t + ext && Ending(ext, mid, e)
    ensures Adds(path, t)
  {
    assert t + ext == (t + mid) + "." + e;
    StemOfName(t + mid, e);
    if mid == ".d" {
      assert (t + mid)[|t|..] == ".d" && (t + mid)[..|t|] == t;
    } else {
      assert t + mid == t;
    }
  }

  lemma StemOfName(stem: string, e: string)
    requires '.' !in e
    ensures StemAndExt(stem + "." + e) == Some((stem, e))
  {
    var name := stem + "." + e;
    assert name[|stem| + 1..] == e && name[..|stem|] == stem;
    LastAfterIs(name, '.', |stem| + 1);
  }

  lemma {:induction false} ExtensionParts(p: string, i: nat)
    requires i < |EXTENSIONS|
    ensures JsStem(p) + EXTENSIONS[i] == p[..LastAfter(p, '/')] + (JsStem(LastName(p)) + EXTENSIONS[i])
    ensures '/' !in JsStem(LastName(p)) + EXTENSIONS[i]
  {
    var mid, e := Endings(i);
    TailFree(p, '/');
    SwapsArePlain();
    var at := LastAfter(p, '/');
    assert p == p[..at] + p[at..];
    StemKeepsDir(p[..at], p[at..], SWAPPED);
    StemFree(LastName(p));
    Regroup(p[..LastAfter(p, '/')], JsStem(LastName(p)), EXTENSIONS[i]);
  }

  lemma ExtensionProbe(p: string, i: nat)
    requires i < |EXTENSIONS|
    ensures Adds(JsStem(p) + EXTENSIONS[i], JsStem(LastName(p)))
  {
    var mid, e := Endings(i);
    ExtensionName(p, i);
    StemAdded(JsStem(p) + EXTENSIONS[i], JsStem(LastName(p)), EXTENSIONS[i], mid, e);
  }

  lemma IndexProbe(p: string, i: nat)
    requires i < |INDEXES|
    ensures Adds(Join(p, INDEXES[i]), LastName(p))
  {
    IndexName(i);
    JoinName(p, INDEXES[i]);
    if p == "" {
      WholeTail(INDEXES[i], '/');
    }
  }

  lemma ProbeIs(p: string, x: string) returns (k: nat)
    requires x in Probes(p)
    ensures k == 0 ==> x == p
    ensures 0 < k <= |EXTENSIONS| ==> x == JsStem(p) + EXTENSIONS[k - 1]
    ensures k > |EXTENSIONS| ==> k - 1 - |EXTENSIONS| < |INDEXES| && x == Join(p, INDEXES[k - 1 - |EXTENSIONS|])
  {
    k :| 0 <= k < |Probes(p)| && Probes(p)[k] == x;
    assert x == ProbeAt(p, k);
  }

  /** Every path a relative import probes is named so that the filter holds it. */
  lemma ProbeAdds(p: string, x: string)
    requires x in Probes(p)
    ensures Adds(x, LastName(p)) || Adds(x, JsStem(LastName(p)))
  {
    var k := ProbeIs(p, x);
    if 0 < k <= |EXTENSIONS| {
      ExtensionProbe(p, k - 1);
    } else if k > |EXTENSIONS| {
      IndexProbe(p, k - 1 - |EXTENSIONS|);
    }
  }

  lemma SwapsArePlain()
    ensures forall i | 0 <= i < |SWAPPED| :: '/' !in SWAPPED[i] && SWAPPED[i] != ""
  {
  }

  lemma {:induction false} StemOfFree(name: string, exts: seq<string>)
    requires '/' !in name
    ensures '/' !in StemOf(name, exts)
  {
    if exts != [] {
      StemOfFree(name, exts[1..]);
    }
  }

  lemma StemFree(name: string)
    requires '/' !in name
    ensures '/' !in JsStem(name)
  {
    StemOfFree(name, SWAPPED);
  }

  /** A name after a prefix that is empty or ends in a slash. */
  lemma NamedBelow(prefix: string, name: string)
    requires '/' !in name && (prefix != "" ==> prefix[|prefix| - 1] == '/')
    ensures LastName(prefix + name) == name
    ensures DirOf(prefix + name) == if prefix == "" then "" else prefix[..|prefix| - 1]
  {
    var s := prefix + name;
    assert s[|prefix|..] == name && (prefix != "" ==> s[..|prefix| - 1] == prefix[..|prefix| - 1]);
    LastAfterIs(s, '/', |prefix|);
  }

  lemma IndexName(i: nat)
    requires i < |INDEXES|
    ensures StartsWith(INDEXES[i], "index.") && '/' !in INDEXES[i]
  {
  }

  /** A directory whose name resolution would not cut, or is cut to `index` inside
      a directory of the same name. */
  predicate DirKnown(p: string) {
    var name := LastName(p);
    JsStem(name) == name || (StartsWith(JsStem(name) + ".", "index.") && LastName(DirOf(p)) == name)
  }

  predicate RelativeKnown(from: string, module_: string) {
    PlainEnd(module_) || DirKnown(Target(from, module_))
  }

  /** The extension probes of a path keep its directory. */
  lemma ExtensionName(p: string, i: nat)
    requires i < |EXTENSIONS|
    ensures LastName(JsStem(p) + EXTENSIONS[i]) == JsStem(LastName(p)) + EXTENSIONS[i]
    ensures DirOf(JsStem(p) + EXTENSIONS[i]) == DirOf(p)
  {
    TailFree(p, '/');
    ExtensionParts(p, i);
    NamedBelow(p[..LastAfter(p, '/')], JsStem(LastName(p)) + EXTENSIONS[i]);
  }

  lemma IndexStem(stem: string, i: nat)
    requires i < |EXTENSIONS|
    ensures StartsWith(stem + ".", "index.") <==> StartsWith(stem + EXTENSIONS[i], "index.")
  {
    var ext := EXTENSIONS[i];
    assert ext[0] == '.';
    if |stem| >= 6 {
      assert (stem + ".")[..6] == stem[..6] == (stem + ext)[..6];
    } else if |stem| == 5 {
      assert (stem + ".")[..6] == stem + "." == (stem + ext)[..6];
    } else if |stem + ext| >= 6 {
      assert (stem + ext)[..6][|stem|] == '.' && "index."[|stem|] != '.';
    }
  }

  /** Every path an import of a directory probes adds the directory's name. */
  lemma DirProbeAdds(p: string, x: string)
    requires x in Probes(p) && DirKnown(p)
    ensures Adds(x, LastName(p))
  {
    var k := ProbeIs(p, x);
    if 0 < k <= |EXTENSIONS| {
      if JsStem(LastName(p)) == LastName(p) {
        ExtensionProbe(p, k - 1);
      } else {
        ExtensionName(p, k - 1);
        IndexStem(JsStem(LastName(p)), k - 1);
      }
    } else if k > |EXTENSIONS| {
      IndexProbe(p, k - 1 - |EXTENSIONS|);
    }
  }

  /** The probes of a relative import that ends in a name, or in such a directory. */
  lemma RelativeLooked(roots: seq<string>, from: string, module_: string)
    requires Relative(module_) && RelativeKnown(from, module_)
    ensures Looked(roots, from, ScriptImport(module_))
  {
    var p := Target(from, module_);
    forall x | x in UpTo(Probes(p), from) ensures Named(from, ScriptImport(module_), x) {
      UpToOf(Probes(p), from, x);
      if PlainEnd(module_) {
        JoinedTail(DirOf(from), module_);
        NormalizedName(Join(DirOf(from), module_));
        ProbeAdds(p, x);
      } else {
        DirProbeAdds(p, x);
      }
    }
  }

  lemma {:induction false} StemIs(name: string, exts: seq<string>) returns (i: nat)
    requires StemOf(name, exts) != name
    ensures i < |exts| && name == StemOf(name, exts) + exts[i]
  {
    if EndsWith(name, exts[0]) {
      i := 0;
    } else {
      i := StemIs(name, exts[1..]);
      i := i + 1;
    }
  }

  lemma StemShorter(name: string, k: nat)
    requires JsStem(name) != name && k < 2
    ensures |JsStem(name)| < |name| && name != JsStem(name) + EXTENSIONS[k]
  {
    var i := StemIs(name, SWAPPED);
    var stem, ext := JsStem(name), EXTENSIONS[k];
    assert (stem + ext)[|stem|..] == ext && (stem + SWAPPED[i])[|stem|..] == SWAPPED[i];
  }

  /** A `.ts` or `.tsx` file beside such a directory is not looked up. */
  lemma SourceDoesNotAdd(p: string, k: nat)
    requires !DirKnown(p) && k < 2
    ensures !Adds(JsStem(p) + EXTENSIONS[k], LastName(p))
  {
    var stem := JsStem(LastName(p));
    var e := if k == 0 then "ts" else "tsx";
    StemShorter(LastName(p), k);
    ExtensionName(p, k);
    IndexStem(stem, k);
    StemOfName(stem, e);
    assert "." + e == EXTENSIONS[k];
    Regroup(stem, ".", e);
  }

  lemma SwapBelow(p: string, from: string, k: nat)
    requires Below(p, from) && k < |EXTENSIONS|
    ensures Below(JsStem(p) + EXTENSIONS[k], from)
  {
    var at := LastAfter(p, '/');
    SlashBefore(p, |from|);
    ExtensionParts(p, k);
    assert p[..at] + p[at..] == p;
    PrefixStays(from + "/", p[..at], p[at..], JsStem(LastName(p)) + EXTENSIONS[k]);
  }

  /** A path below the importing file is none, nor is what is probed from it. */
  lemma ProbeBelow(p: string, from: string, x: string)
    requires Below(p, from) && x in Probes(p)
    ensures Below(x, from)
  {
    var k := ProbeIs(p, x);
    if 0 < k <= |EXTENSIONS| {
      SwapBelow(p, from, k - 1);
    } else if k > |EXTENSIONS| {
      assert x[..|from| + 1] == p[..|from| + 1];
    }
  }

  lemma SlashBefore(p: string, i: nat)
    requires i < |p| && p[i] == '/'
    ensures i < LastAfter(p, '/')
  {
    TailFree(p, '/');
    var at := LastAfter(p, '/');
    forall k | at <= k < |p| ensures p[k] != '/' {
      assert p[k] == p[at..][k - at] && p[at..][k - at] in p[at..];
    }
  }

  lemma PrefixStays(prefix: string, dir: string, a: string, b: string)
    requires StartsWith(dir + a, prefix) && |prefix| <= |dir|
    ensures StartsWith(dir + b, prefix)
  {
    assert (dir + a)[..|prefix|] == dir[..|prefix|] == (dir + b)[..|prefix|];
  }

  /** A `.ts` or a `.tsx` file that is probed, not looked up, and may stand beside
      the importing file. */
  lemma SourceProbed(roots: seq<string>, from: string, module_: string) returns (x: string)
    requires Relative(module_) && !RelativeKnown(from, module_)
    requires var p := Target(from, module_); from != p && from != JsStem(p) + ".ts" && !Below(p, from)
    ensures x in UpTo(Probed(roots, from, ScriptImport(module_)), from)
    ensures !Named(from, ScriptImport(module_), x) && !Below(x, from) && !Below(from, x)
    ensures !Below(from, JsStem(Target(from, module_)) + ".ts") ==> x == JsStem(Target(from, module_)) + ".ts"
  {
    var p := Target(from, module_);
    var ts, tsx := JsStem(p) + ".ts", JsStem(p) + ".tsx";
    var k := if Below(from, ts) then 1 else 0;
    x := if Below(from, ts) then tsx else ts;
    assert EXTENSIONS[0] == ".ts" && EXTENSIONS[1] == ".tsx";
    SourceDoesNotAdd(p, k);
    NotBoth(from, JsStem(p));
    SourceNotBelow(p, from, k);
    assert Probes(p)[0] == p && Probes(p)[1] == ts && Probes(p)[2] == tsx;
    assert Probes(p)[..3] == [p, ts, tsx] && Probes(p)[..2] == [p, ts];
    UpToHas(Probes(p), from, k + 1);
  }

  lemma NotBoth(from: string, stem: string)
    ensures !(Below(from, stem + ".ts") && Below(from, stem + ".tsx"))
    ensures Below(from, stem + ".ts") ==> from != stem + ".tsx"
  {
    assert (stem + ".ts" + "/")[|stem| + 3] == '/' && (stem + ".tsx" + "/")[|stem| + 3] == 'x';
    assert (stem + ".tsx")[|stem| + 3] == 'x';
    if Below(from, stem + ".ts") {
      assert from[|stem| + 3] == from[..|stem + ".ts" + "/"|][|stem| + 3] == '/';
    }
    if Below(from, stem + ".tsx") {
      assert from[|stem| + 3] == from[..|stem + ".tsx" + "/"|][|stem| + 3] == 'x';
    }
  }

  lemma SourceNotBelow(p: string, from: string, k: nat)
    requires k < |EXTENSIONS| && !Below(p, from)
    ensures !Below(JsStem(p) + EXTENSIONS[k], from)
  {
    var at, x := LastAfter(p, '/'), JsStem(p) + EXTENSIONS[k];
    ExtensionParts(p, k);
    var name := JsStem(LastName(p)) + EXTENSIONS[k];
    assert x == p[..at] + name;
    if |from| < at {
      assert x[..|from| + 1] == p[..|from| + 1];
    } else if |from| < |x| {
      assert x[|from|] == name[|from| - at] && name[|from| - at] in name;
      assert x[..|from| + 1][|from|] == x[|from|];
    }
  }

  /** The filter is right about a relative import exactly when the import ends in a
      name, or in a directory whose name resolution would not cut, or is one the
      importing file answers itself, or names something below that file. */
  lemma RelativeExactly(roots: seq<string>, from: string, module_: string)
    requires Relative(module_)
    ensures var p := Target(from, module_);
      Safe(roots, from, ScriptImport(module_)) <==>
        RelativeKnown(from, module_) || from == p || from == JsStem(p) + ".ts" || Below(p, from)
  {
    var p, im := Target(from, module_), ScriptImport(module_);
    FilterExactly(roots, from, im);
    if RelativeKnown(from, module_) {
      RelativeLooked(roots, from, module_);
    } else if from == p || from == JsStem(p) + ".ts" {
      SelfNamed(p, from);
    } else if Below(p, from) {
      forall x | x in UpTo(Probes(p), from) ensures Below(x, from) {
        UpToOf(Probes(p), from, x);
        ProbeBelow(p, from, x);
      }
    } else {
      var x := SourceProbed(roots, from, module_);
    }
  }

  /** Before the importing file only the directory itself is probed. */
  lemma SelfNamed(p: string, from: string)
    requires from == p || from == JsStem(p) + ".ts"
    ensures forall x | x in UpTo(Probes(p), from) :: x == p
  {
    var xs := Probes(p);
    assert EXTENSIONS[0] == ".ts";
    assert xs[0] == p && xs[1] == JsStem(p) + ".ts" && xs == [p] + xs[1..] && xs[1..][0] == xs[1];
    assert from == xs[1] ==> UpTo(xs[1..], from) == [];
  }

  lemma {:induction false} SplitAt(a: string, c: char, b: string)
    requires c !in a
    ensures Split(a + [c] + b, c) == [a] + Split(b, c)
  {
    var s := a + [c] + b;
    if a == "" {
      assert s[1..] == b;
    } else {
      assert s[1..] == a[1..] + [c] + b;
      SplitAt(a[1..], c, b);
      assert [a[0]] + a[1..] == a;
    }
  }

  lemma DotOfDirectory()
    ensures Target("b.js/a.ts", ".") == "b.js"
  {
    NamedBelow("b.js/", "a.ts");
    assert "b.js/" + "a.ts" == "b.js/a.ts" && "b.js/"[..4] == "b.js";
    ThisDirectory("b.js");
  }

  lemma ThisDirectory(dir: string)
    requires '/' !in dir && dir !in {"", ".", ".."}
    ensures Normalized(Join(dir, ".")) == dir
  {
    SplitAt(dir, '/', ".");
    OnePart(".", '/');
    assert [dir, "."][..1] == [dir] && [dir][..0] == [];
    assert Resolved([dir]) == [dir];
  }

  lemma JsStemOf(stem: string)
    ensures JsStem(stem + ".js") == stem
  {
    assert (stem + ".js")[|stem|..] == ".js" && (stem + ".js")[..|stem|] == stem;
  }

  /** The smallest case: in a directory `b.js`, `import "."` comes to mean an added
      `b.ts`, and the filter rejects it. */
  lemma DirectoryEscapes(roots: seq<string>)
    ensures var from, im := "b.js/a.ts", ScriptImport(".");
      && Modelled(im) && Tree({from}) && Tree({from, "b.ts"}) && !MayMove(ReachOf(["b.ts"]), from, im)
      && ResolveModule({from}, roots, from, im) == None
      && ResolveModule({from, "b.ts"}, roots, from, im) == Some("b.ts")
  {
    var from, im := "b.js/a.ts", ScriptImport(".");
    DotOfDirectory();
    EscapeIsOpen();
    var x := SourceProbed(roots, from, ".");
    ProbeMoves(roots, from, im, x);
    ResolvesFirst({from}, roots, from, im);
    ResolvesFirst({from, x}, roots, from, im);
    NoneOf({from}, UpTo(Probed(roots, from, im), from));
    OnlyOne(from, x, UpTo(Probed(roots, from, im), from));
  }

  lemma {:induction false} OnlyOne(from: string, x: string, xs: seq<string>)
    requires x in xs && from !in xs
    ensures FirstOf({from, x}, xs) == Some(x)
  {
    if xs[0] != x {
      OnlyOne(from, x, xs[1..]);
    }
  }

  lemma EscapeIsOpen()
    ensures JsStem("b.js") + ".ts" == "b.ts" && !DirKnown("b.js") && !PlainEnd(".")
    ensures var from := "b.js/a.ts"; from != "b.js" && from != "b.ts" && !Below("b.js", from) && !Below(from, "b.ts")
  {
    WholeTail("b.js", '/');
    WholeTail(".", '/');
    JsStemOf("b");
    assert "b" + ".js" == "b.js" && "b" + ".ts" == "b.ts" && "b.ts" + "/" == "b.ts/";
    assert "b.js/a.ts"[2] == 'j' && "b.ts/"[2] == 't' && "b.js/a.ts"[..5][2] == 'j';
  }

  // ------------------------------------------------------------ re-resolution

  /** What the stored edge of an import leads to now: nothing once its target is
      deleted. */
  function Stored(after: Paths, was: Option<string>): Option<string> {
    if was.Some? && was.value in after then was else None
  }

  /** `reresolve` for one unchanged file: is any import it may move answered by
      another file now than its stored edge leads to? */
  predicate Again(r: Reach, after: Paths, roots: seq<string>, from: string, ims: seq<Import>, was: seq<Option<string>>)
    requires |was| == |ims| && forall i | 0 <= i < |ims| :: Modelled(ims[i])
  {
    exists i :: 0 <= i < |ims| && MayMove(r, from, ims[i])
      && ResolveModule(after, roots, from, ims[i]) != Stored(after, was[i])
  }

  lemma {:induction false} FirstHits(files: Paths, xs: seq<string>)
    requires FirstOf(files, xs).Some?
    ensures FirstOf(files, xs).value in files && FirstOf(files, xs).value in xs
  {
    if xs[0] !in files {
      FirstHits(files, xs[1..]);
    }
  }

  /** An import resolves only to a file there is, and not to the importing one. */
  lemma ResolvesToFile(files: Paths, roots: seq<string>, from: string, im: Import)
    requires Modelled(im) && ResolveModule(files, roots, from, im).Some?
    ensures ResolveModule(files, roots, from, im).value in files && ResolveModule(files, roots, from, im).value != from
  {
    match im
    case PyImport(m) =>
      PythonFirst(files, roots, from, m);
      FirstHits(files, PyProbes(roots, from, m));
    case ScriptImport(m) =>
      FirstHits(files, Probes(Target(from, m)));
  }

  /** What a rejected import resolves to is not a changed file. */
  lemma {:induction false} TargetUnchanged(changed: seq<string>, files: Paths, roots: seq<string>, from: string,
                                           im: Import)
    requires Modelled(im) && Looked(roots, from, im) && !MayMove(ReachOf(changed), from, im) && from in files
    requires ResolveModule(files, roots, from, im).Some?
    ensures ResolveModule(files, roots, from, im).value !in changed
  {
    var xs := UpTo(Probed(roots, from, im), from);
    ResolvesFirst(files, roots, from, im);
    FirstHits(files, xs);
    MayMoveMeans(changed, from, im);
  }

  /** A file `reresolve` leaves alone needs no other edges: each stored edge leads
      where a clean build over the new files would point it. */
  lemma {:induction false} LeftAloneIsClean(changed: seq<string>, before: Paths, after: Paths, roots: seq<string>,
                                            from: string, ims: seq<Import>, was: seq<Option<string>>, i: nat)
    requires Covers(changed, before, after) && |was| == |ims| && from in before && from in after
    requires forall k | 0 <= k < |ims| :: Modelled(ims[k])
    requires !Again(ReachOf(changed), after, roots, from, ims, was)
    requires i < |ims| && Looked(roots, from, ims[i]) && was[i] == ResolveModule(before, roots, from, ims[i])
    ensures ResolveModule(after, roots, from, ims[i]) == Stored(after, was[i])
  {
    if !MayMove(ReachOf(changed), from, ims[i]) {
      ImportStays(changed, before, after, roots, from, ims[i]);
      if was[i].Some? {
        ResolvesToFile(after, roots, from, ims[i]);
      }
    }
  }
}
