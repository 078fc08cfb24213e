/**
 * The walk over installed packages that looks for ones a CommonJS loader cannot
 * require: resolution up the directory tree, a shared visited set, and the offenders.
 */
module CjsDeps {
  import opened Common

  /** A directory as its segments from the root; a package's directory stands for its package.json. */
  type Path = seq<string>

  /** A package name as its segments: one, or a scope and one. */
  type Name = seq<string>

  datatype Manifest =
    | Unreadable
    | Manifest(kind: Option<string>, exportsJson: Option<string>, main: Option<string>, dependencies: seq<Name>)

  type Files = map<Path, Manifest>

  const NODE_MODULES := "node_modules"

  function Candidate(dir: Path, name: Name): Path { dir + [NODE_MODULES] + name }

  // ---------- Resolution ----------

  function Resolve(files: Files, name: Name, dir: Path): (found: Option<Path>)
    ensures found.Some? ==> found.value in files
    decreases |dir|
  {
    if Candidate(dir, name) in files then Some(Candidate(dir, name))
    else if dir == [] then None
    else Resolve(files, name, dir[..|dir| - 1])
  }

  /** Climbs from a directory to the root; the nearest installed copy wins. */
  method ResolvePackageJson(files: Files, name: Name, fromDir: Path) returns (found: Option<Path>)
    ensures found == Resolve(files, name, fromDir)
  {
    var dir := fromDir;
    while true
      invariant Resolve(files, name, dir) == Resolve(files, name, fromDir)
      decreases |dir|
    {
      if Candidate(dir, name) in files {
        return Some(Candidate(dir, name));
      }
      if dir == [] {
        return None;
      }
      dir := dir[..|dir| - 1];
    }
  }

  lemma {:induction false} ResolvesUnder(files: Files, name: Name, dir: Path)
    requires Resolve(files, name, dir).Some?
    ensures exists n :: 0 <= n <= |dir| && Resolve(files, name, dir).value == dir[..n] + ["node_modules"] + name
    decreases |dir|
  {
    assert dir[..|dir|] == dir;
    if Candidate(dir, name) !in files {
      var up := dir[..|dir| - 1];
      ResolvesUnder(files, name, up);
      var n :| 0 <= n <= |up| && Resolve(files, name, up).value == up[..n] + ["node_modules"] + name;
      assert up[..n] == dir[..n];
    }
  }

  /** What resolution finds is the copy in the deepest directory, on the way up, that holds one. */
  lemma {:induction false} ResolveIsNearest(files: Files, name: Name, dir: Path)
    ensures Resolve(files, name, dir).Some? <==> exists n :: 0 <= n <= |dir| && Candidate(dir[..n], name) in files
    ensures Resolve(files, name, dir).Some? ==> exists n ::
      0 <= n <= |dir| && Resolve(files, name, dir).value == dir[..n] + ["node_modules"] + name
    ensures forall n :: 0 <= n <= |dir| && Resolve(files, name, dir) == Some(Candidate(dir[..n], name)) ==>
      forall m :: n < m <= |dir| ==> Candidate(dir[..m], name) !in files
    decreases |dir|
  {
    assert dir[..|dir|] == dir;
    if Resolve(files, name, dir).Some? { ResolvesUnder(files, name, dir); }
    if Candidate(dir, name) in files {
      assert forall n :: 0 <= n < |dir| ==> |Candidate(dir[..n], name)| < |Candidate(dir, name)|;
    } else if dir != [] {
      var up := dir[..|dir| - 1];
      ResolveIsNearest(files, name, up);
      assert forall n :: 0 <= n <= |up| ==> up[..n] == dir[..n];
      if n :| 0 <= n <= |dir| && Candidate(dir[..n], name) in files {
        assert n <= |up| && Candidate(up[..n], name) in files;
      }
    }
  }

  // ---------- Requireable ----------

  predicate Contains(s: string, part: string) { exists i :: 0 <= i <= |s| && part <= s[i..] }

  predicate EndsWith(s: string, end: string) { |s| >= |end| && s[|s| - |end|..] == end }

  predicate IsRequireable(m: Manifest)
    requires m.Manifest?
  {
    || m.kind != Some("module")
    || (m.exportsJson.Some? && Contains(m.exportsJson.value, "\"require\""))
    || (m.main.Some? && EndsWith(m.main.value, ".cjs"))
  }

  /** What cannot be required: declared a module, no "require" among its exports, and no .cjs entry. */
  lemma OffendsMeans(files: Files, p: Path)
    ensures Offends(files, p)
      <==> && p in files && files[p].Manifest? && files[p].kind == Some("module")
           && (files[p].exportsJson.Some? ==>
                 var json := files[p].exportsJson.value;
                 forall i :: 0 <= i <= |json| - 9 ==> json[i..][..9] != "\"require\"")
           && (files[p].main.Some? ==>
                 var main := files[p].main.value;
                 |main| < 4 || main[|main| - 4..] != ".cjs")
  {
    if p in files && files[p].Manifest? && files[p].exportsJson.Some? {
      ContainsMeans(files[p].exportsJson.value, "\"require\"");
    }
  }

  lemma ContainsMeans(s: string, part: string)
    ensures Contains(s, part) <==> exists i :: 0 <= i <= |s| - |part| && s[i..][..|part|] == part
  {
    if i :| 0 <= i <= |s| && part <= s[i..] {
      assert |part| <= |s[i..]| && s[i..][..|part|] == part;
    }
    if i :| 0 <= i <= |s| - |part| && s[i..][..|part|] == part {
      assert part <= s[i..];
    }
  }

  predicate Offends(files: Files, p: Path) {
    p in files && files[p].Manifest? && !IsRequireable(files[p])
  }

  function Dependencies(files: Files, p: Path): seq<Name> {
    if p in files && files[p].Manifest? then files[p].dependencies else []
  }

  // ---------- Dependency paths ----------

  /** The project: the directory the walk starts in and its declared dependencies. */
  datatype Root = Root(cwd: Path, dependencies: seq<Name>)

  /** Where a chain of names leads, each a declared dependency of the package before it. */
  function EndOf(files: Files, root: Root, chain: seq<Name>): Option<Path> {
    if chain == [] then None
    else
      var n := |chain| - 1;
      if n == 0 then (if chain[0] in root.dependencies then Resolve(files, chain[0], root.cwd) else None)
      else
        match EndOf(files, root, chain[..n])
        case None => None
        case Some(p) => if chain[n] in Dependencies(files, p) then Resolve(files, chain[n], p) else None
  }

  ghost predicate Reachable(files: Files, root: Root, p: Path) {
    exists chain :: EndOf(files, root, chain) == Some(p)
  }

  /** What is reachable: what the project's dependencies resolve to, and what those of a reachable package do. */
  lemma ReachableIff(files: Files, root: Root, p: Path)
    ensures Reachable(files, root, p)
      <==> || (exists name :: name in root.dependencies && Resolve(files, name, root.cwd) == Some(p))
           || (exists q, name ::
                 && Reachable(files, root, q) && q in files && files[q].Manifest? && name in files[q].dependencies
                 && Resolve(files, name, q) == Some(p))
  {
    if Reachable(files, root, p) {
      var chain :| EndOf(files, root, chain) == Some(p);
      var n := |chain| - 1;
      if n > 0 {
        var q := EndOf(files, root, chain[..n]).value;
        assert Reachable(files, root, q) && chain[n] in files[q].dependencies;
      }
    }
    if name :| name in root.dependencies && Resolve(files, name, root.cwd) == Some(p) {
      assert EndOf(files, root, [name]) == Some(p);
    }
    if q, name :|
      && Reachable(files, root, q) && q in files && files[q].Manifest? && name in files[q].dependencies
      && Resolve(files, name, q) == Some(p)
    {
      var chain :| EndOf(files, root, chain) == Some(q);
      ChainStep(files, root, chain, name, q);
    }
  }

  lemma ChainStep(files: Files, root: Root, chain: seq<Name>, name: Name, p: Path)
    requires EndOf(files, root, chain) == Some(p) && name in Dependencies(files, p)
    ensures EndOf(files, root, chain + [name]) == Resolve(files, name, p)
  {
    assert (chain + [name])[..|chain|] == chain;
  }

  /** The name a package is installed under: what follows the last `node_modules` of its directory. */
  function InstalledName(p: Path): Name {
    if p == [] || p[|p| - 1] == NODE_MODULES then [] else InstalledName(p[..|p| - 1]) + [p[|p| - 1]]
  }

  lemma {:induction false} CandidateName(dir: Path, name: Name)
    requires NODE_MODULES !in name
    ensures InstalledName(Candidate(dir, name)) == name
    decreases |name|
  {
    var p := Candidate(dir, name);
    if name != [] {
      var n := |name| - 1;
      assert p[..|p| - 1] == Candidate(dir, name[..n]) && p[|p| - 1] == name[n];
      CandidateName(dir, name[..n]);
    }
  }

  lemma {:induction false} ResolvedName(files: Files, name: Name, dir: Path)
    requires NODE_MODULES !in name && Resolve(files, name, dir).Some?
    ensures InstalledName(Resolve(files, name, dir).value) == name
    decreases |dir|
  {
    CandidateName(dir, name);
    if Candidate(dir, name) !in files { ResolvedName(files, name, dir[..|dir| - 1]); }
  }

  /** No dependency is itself called `node_modules`. */
  ghost predicate WellNamed(files: Files, root: Root) {
    && (forall name :: name in root.dependencies ==> NODE_MODULES !in name)
    && (forall p, name :: p in files && name in Dependencies(files, p) ==> NODE_MODULES !in name)
  }

  // ---------- What the walk keeps ----------

  /** The recorded chain ends in the offender's name and leads, dependency by dependency, to a package that offends. */
  ghost predicate RealChain(files: Files, root: Root, name: Name, chain: seq<Name>, visited: set<Path>) {
    && chain != [] && chain[|chain| - 1] == name
    && EndOf(files, root, chain).Some? && EndOf(files, root, chain).value in visited
    && Offends(files, EndOf(files, root, chain).value)
    && InstalledName(EndOf(files, root, chain).value) == name
  }

  ghost predicate AllReached(files: Files, root: Root, visited: set<Path>) {
    visited <= files.Keys && forall p :: p in visited ==> Reachable(files, root, p)
  }

  ghost predicate AllRecorded(files: Files, visited: set<Path>, offenders: map<Name, seq<Name>>) {
    forall p :: p in visited && Offends(files, p) ==> InstalledName(p) in offenders
  }

  ghost predicate AllReal(files: Files, root: Root, visited: set<Path>, offenders: map<Name, seq<Name>>) {
    forall name :: name in offenders ==> RealChain(files, root, name, offenders[name], visited)
  }

  /** What a name resolves to, from a directory, has been visited. */
  ghost predicate Settled(files: Files, visited: set<Path>, name: Name, dir: Path) {
    Resolve(files, name, dir).Some? ==> Resolve(files, name, dir).value in visited
  }

  ghost predicate DependenciesSettled(files: Files, visited: set<Path>, p: Path) {
    forall name :: name in Dependencies(files, p) ==> Settled(files, visited, name, p)
  }

  /** The packages in `done` have all their dependencies visited. */
  ghost predicate Explored(files: Files, visited: set<Path>, done: set<Path>) {
    forall p :: p in done ==> DependenciesSettled(files, visited, p)
  }

  lemma ExploredGrows(files: Files, visited: set<Path>, more: set<Path>, done: set<Path>)
    requires Explored(files, visited, done) && visited <= more
    ensures Explored(files, more, done)
  {
    forall p | p in done ensures DependenciesSettled(files, more, p) {
      assert DependenciesSettled(files, visited, p);
    }
  }

  /** A set closed under dependencies that holds the root's own holds everything reachable. */
  lemma {:induction false} ClosedHoldsReachable(files: Files, root: Root, visited: set<Path>, chain: seq<Name>)
    requires Explored(files, visited, visited)
    requires forall name :: name in root.dependencies ==> Settled(files, visited, name, root.cwd)
    requires EndOf(files, root, chain).Some?
    ensures EndOf(files, root, chain).value in visited
    decreases |chain|
  {
    var n := |chain| - 1;
    if n > 0 {
      ClosedHoldsReachable(files, root, visited, chain[..n]);
      var p := EndOf(files, root, chain[..n]).value;
      assert DependenciesSettled(files, visited, p);
    }
  }

  lemma RealChainGrows(files: Files, root: Root, name: Name, chain: seq<Name>, visited: set<Path>, p: Path)
    requires RealChain(files, root, name, chain, visited)
    ensures RealChain(files, root, name, chain, visited + {p})
  {
  }

  lemma RecordedGrows(files: Files, visited: set<Path>, before: map<Name, seq<Name>>, p: Path,
                      after: map<Name, seq<Name>>)
    requires AllRecorded(files, visited, before) && before.Keys <= after.Keys
    requires Offends(files, p) ==> InstalledName(p) in after
    ensures AllRecorded(files, visited + {p}, after)
  {
    forall q | q in visited + {p} && Offends(files, q) ensures InstalledName(q) in after {
      if q != p { assert InstalledName(q) in before.Keys; }
    }
  }

  lemma RealGrows(files: Files, root: Root, visited: set<Path>, before: map<Name, seq<Name>>,
                  p: Path, name: Name, here: seq<Name>, after: map<Name, seq<Name>>)
    requires AllReal(files, root, visited, before)
    requires after == before || (after == before[name := here] && RealChain(files, root, name, here, visited + {p}))
    ensures AllReal(files, root, visited + {p}, after)
  {
    forall n | n in after ensures RealChain(files, root, n, after[n], visited + {p}) {
      if after == before || n != name {
        RealChainGrows(files, root, n, before[n], visited, p);
      }
    }
  }

  // ---------- The walk ----------

  class Scanner {
    const files: Files
    const root: Root
    var visited: set<Path>
    var offenders: map<Name, seq<Name>>

    constructor (files: Files, root: Root)
      ensures this.files == files && this.root == root && visited == {} && offenders == map[]
    {
      this.files, this.root := files, root;
      visited, offenders := {}, map[];
    }

    /** Everything visited is reachable, every offender visited is recorded, every record is a real chain. */
    ghost predicate Honest()
      reads this
    {
      AllReached(files, root, visited) && AllRecorded(files, visited, offenders)
          && AllReal(files, root, visited, offenders)
    }

    /** Marks a package visited and, if it offends under a name not recorded yet, records how it was reached. */
    method Visit(p: Path, name: Name, here: seq<Name>)
      requires Honest() && p in files && InstalledName(p) == name
      requires here != [] && EndOf(files, root, here) == Some(p) && here[|here| - 1] == name
      modifies this
      ensures Honest() && visited == old(visited) + {p}
    {
      ghost var before := offenders;
      visited := visited + {p};
      if files[p].Manifest? && !IsRequireable(files[p]) && name !in offenders {
        offenders := offenders[name := here];
      }
      RecordedGrows(files, old(visited), before, p, offenders);
      RealGrows(files, root, old(visited), before, p, name, here, offenders);
    }

    method Walk(name: Name, fromDir: Path, chain: seq<Name>)
      requires WellNamed(files, root) && NODE_MODULES !in name && Honest()
      requires EndOf(files, root, chain + [name]) == Resolve(files, name, fromDir)
      modifies this
      ensures Honest() && old(visited) <= visited
      ensures Settled(files, visited, name, fromDir)
      ensures Explored(files, visited, visited - old(visited))
      decreases files.Keys - visited
    {
      var pkgPath := ResolvePackageJson(files, name, fromDir);
      if pkgPath.None? || pkgPath.value in visited {
        return;
      }
      var p := pkgPath.value;
      var here := chain + [name];
      ResolvedName(files, name, fromDir);
      Visit(p, name, here);
      if files[p].Unreadable? {
        return;
      }
      var deps := files[p].dependencies;
      for k := 0 to |deps|
        invariant Honest() && old(visited) + {p} <= visited
        invariant Explored(files, visited, visited - old(visited) - {p})
        invariant forall i :: 0 <= i < k ==> Settled(files, visited, deps[i], p)
      {
        ghost var before := visited;
        ChainStep(files, root, here, deps[k], p);
        Walk(deps[k], p, here);
        ExploredGrows(files, before, visited, before - old(visited) - {p});
        assert visited - old(visited) - {p} <= (before - old(visited) - {p}) + (visited - before);
      }
      assert DependenciesSettled(files, visited, p);
    }

    /** The whole scan: exactly the reachable packages are visited, and exactly their offenders' names recorded. */
    method Scan()
      requires WellNamed(files, root) && visited == {} && offenders == map[]
      modifies this
      ensures forall p :: p in visited <==> Reachable(files, root, p)
      ensures forall name :: name in offenders <==>
        exists p :: Reachable(files, root, p) && Offends(files, p) && InstalledName(p) == name
      ensures AllReal(files, root, visited, offenders)
    {
      for k := 0 to |root.dependencies|
        invariant Honest() && Explored(files, visited, visited)
        invariant forall i :: 0 <= i < k ==> Settled(files, visited, root.dependencies[i], root.cwd)
      {
        ghost var before := visited;
        assert root.dependencies[k] in root.dependencies;
        assert [] + [root.dependencies[k]] == [root.dependencies[k]];
        Walk(root.dependencies[k], root.cwd, []);
        ExploredGrows(files, before, visited, before);
        assert visited == before + (visited - before);
      }
      forall p | Reachable(files, root, p) ensures p in visited {
        var chain :| EndOf(files, root, chain) == Some(p);
        ClosedHoldsReachable(files, root, visited, chain);
      }
      forall name | name in offenders
        ensures exists p :: Reachable(files, root, p) && Offends(files, p) && InstalledName(p) == name
      {
        assert RealChain(files, root, name, offenders[name], visited);
        assert Reachable(files, root, EndOf(files, root, offenders[name]).value);
      }
    }
  }

  /** The verdict: safe exactly when every reachable package that cannot be required is on the allow list. */
  method CheckDependencies(files: Files, root: Root, allowed: set<Name>) returns (safe: bool, blocking: set<Name>)
    requires WellNamed(files, root)
    ensures safe <==> blocking == {}
    ensures forall name :: name in blocking <==>
      name !in allowed && exists p :: Reachable(files, root, p) && Offends(files, p) && InstalledName(p) == name
  {
    var scanner := new Scanner(files, root);
    scanner.Scan();
    blocking := set name | name in scanner.offenders && name !in allowed;
    safe := blocking == {};
  }
}
