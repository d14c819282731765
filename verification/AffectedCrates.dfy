/** Which workspace crates a change affects: file-to-crate mapping by longest
    directory, reverse dependencies, and reachability by worklist. */
module AffectedCrates {
  import opened Bytes

  /** A workspace package; `dir` is its directory relative to the workspace root. */
  datatype Package = Package(name: string, dir: string, dependencies: seq<string>)

  function Names(packages: seq<Package>): set<string> {
    set p | p in packages :: p.name
  }

  // -------------------------------------------------------------- reverse dependencies

  /** `user` is a package that lists `used`, itself a workspace package. */
  ghost predicate DependsOn(packages: seq<Package>, user: string, used: string) {
    used in Names(packages) && exists p :: p in packages && p.name == user && used in p.dependencies
  }

  type Graph = map<string, set<string>>

  function Rdeps(g: Graph, crate: string): set<string> {
    if crate in g then g[crate] else {}
  }

  function Added(g: Graph, used: string, user: string): Graph {
    g[used := Rdeps(g, used) + {user}]
  }

  /** The graph holds the dependencies of the first packages and of part of the next. */
  ghost predicate Holds(packages: seq<Package>, g: Graph, i: nat, j: nat)
    requires i <= |packages|
  {
    forall used, user ::
      user in Rdeps(g, used) <==>
      used in Names(packages) && (UsedBy(packages[..i], user, used) || UsedByPart(packages, i, j, user, used))
  }

  ghost predicate UsedBy(packages: seq<Package>, user: string, used: string) {
    exists p :: p in packages && p.name == user && used in p.dependencies
  }

  ghost predicate UsedByPart(packages: seq<Package>, i: nat, j: nat, user: string, used: string) {
    i < |packages| && packages[i].name == user && j <= |packages[i].dependencies| && used in packages[i].dependencies[..j]
  }

  lemma NextPackage(packages: seq<Package>, g: Graph, i: nat)
    requires i < |packages| && Holds(packages, g, i, |packages[i].dependencies|)
    ensures Holds(packages, g, i + 1, 0)
  {
    var p := packages[i];
    assert packages[..i + 1] == packages[..i] + [p];
    assert p.dependencies[..|p.dependencies|] == p.dependencies;
    forall used, user
      ensures UsedBy(packages[..i + 1], user, used)
         <==> UsedBy(packages[..i], user, used) || UsedByPart(packages, i, |p.dependencies|, user, used)
    {
    }
  }

  lemma NextDependency(packages: seq<Package>, g: Graph, i: nat, j: nat)
    requires i < |packages| && j < |packages[i].dependencies| && Holds(packages, g, i, j)
    ensures var dep := packages[i].dependencies[j];
      Holds(packages, if dep in Names(packages) then Added(g, dep, packages[i].name) else g, i, j + 1)
  {
    var deps, name := packages[i].dependencies, packages[i].name;
    assert deps[..j + 1] == deps[..j] + [deps[j]];
    var g' := if deps[j] in Names(packages) then Added(g, deps[j], name) else g;
    forall used, user
      ensures user in Rdeps(g', used) <==>
        used in Names(packages) && (UsedBy(packages[..i], user, used) || UsedByPart(packages, i, j + 1, user, used))
    {
      assert UsedByPart(packages, i, j + 1, user, used) <==>
          UsedByPart(packages, i, j, user, used) || (user == name && used == deps[j]);
    }
  }

  method BuildReverseDeps(packages: seq<Package>) returns (reverse: Graph)
    ensures forall used, user :: user in Rdeps(reverse, used) <==> DependsOn(packages, user, used)
  {
    var workspaceNames := Names(packages);
    reverse := map[];
    for i := 0 to |packages|
      invariant Holds(packages, reverse, i, 0)
    {
      var deps := packages[i].dependencies;
      for j := 0 to |deps|
        invariant Holds(packages, reverse, i, j)
      {
        NextDependency(packages, reverse, i, j);
        if deps[j] in workspaceNames {
          reverse := Added(reverse, deps[j], packages[i].name);
        }
      }
      NextPackage(packages, reverse, i);
    }
    assert packages[..|packages|] == packages;
    forall used, user
      ensures user in Rdeps(reverse, used) <==> DependsOn(packages, user, used)
    {
      assert user in Rdeps(reverse, used) <==> used in Names(packages) && UsedBy(packages, user, used);
    }
  }

  // ------------------------------------------------------------------ the worklist

  /** A walk along reverse dependencies, from a changed crate. */
  ghost predicate Walk(g: Graph, changed: set<string>, path: seq<string>) {
    && path != [] && path[0] in changed
    && forall i :: 0 < i < |path| ==> path[i] in Rdeps(g, path[i - 1])
  }

  ghost predicate Reached(g: Graph, changed: set<string>, crate: string) {
    exists path :: Walk(g, changed, path) && path[|path| - 1] == crate
  }

  lemma ReachedStep(g: Graph, changed: set<string>, crate: string, next: string)
    requires Reached(g, changed, crate) && next in Rdeps(g, crate)
    ensures Reached(g, changed, next)
  {
    var path :| Walk(g, changed, path) && path[|path| - 1] == crate;
    assert Walk(g, changed, path + [next]);
    assert (path + [next])[|path|] == next;
  }

  /** A set that holds the changed crates and is closed under the graph holds every
      crate that is reached. */
  lemma {:induction false} ClosedHoldsWalk(g: Graph, changed: set<string>, closed: set<string>, path: seq<string>, k: nat)
    requires changed <= closed && forall c :: c in closed ==> Rdeps(g, c) <= closed
    requires Walk(g, changed, path) && k < |path|
    ensures path[k] in closed
  {
    if k > 0 {
      ClosedHoldsWalk(g, changed, closed, path, k - 1);
      assert path[k] in Rdeps(g, path[k - 1]);
    }
  }

  /** Every crate the graph mentions as a dependent. */
  function Dependents(g: Graph): set<string> {
    set crate, user | crate in g && user in g[crate] :: user
  }

  /** A crate found has been expanded, is being expanded or is still queued. */
  ghost predicate Explored(g: Graph, affected: set<string>, queue: seq<string>) {
    forall c :: c in affected && c !in queue ==> Rdeps(g, c) <= affected
  }

  ghost predicate Found(g: Graph, changed: set<string>, affected: set<string>, queue: seq<string>) {
    && changed <= affected <= changed + Dependents(g)
    && (forall c :: c in queue ==> c in affected)
    && (forall c :: c in affected ==> Reached(g, changed, c))
  }

  lemma AllReached(g: Graph, changed: set<string>)
    ensures forall c :: c in changed ==> Reached(g, changed, c)
  {
    forall c | c in changed
      ensures Reached(g, changed, c)
    {
      assert Walk(g, changed, [c]);
      assert [c][0] == c;
    }
  }

  lemma FoundOneMore(g: Graph, changed: set<string>, crate: string, rdep: string, affected: set<string>, queue: seq<string>)
    requires Found(g, changed, affected, queue) && Explored(g, affected, queue + [crate])
    requires crate in affected && rdep in Rdeps(g, crate)
    ensures Found(g, changed, affected + {rdep}, queue + [rdep])
    ensures Explored(g, affected + {rdep}, queue + [rdep] + [crate])
  {
    ReachedStep(g, changed, crate, rdep);
    assert rdep in Dependents(g);
    forall c | c in affected + {rdep} && c !in queue + [rdep] + [crate]
      ensures Rdeps(g, c) <= affected + {rdep}
    {
      assert c != rdep && c !in queue && c != crate;
      assert c !in queue + [crate];
    }
  }

  method Listed(s: set<string>) returns (list: seq<string>)
    ensures forall x :: x in list <==> x in s
  {
    list := [];
    var left := s;
    while left != {}
      invariant left <= s && forall x :: x in list <==> x in s - left
    {
      var x :| x in left;
      list, left := list + [x], left - {x};
    }
  }

  /** Adds the reverse dependencies of one crate, queueing the new ones. */
  method Expand(ghost g: Graph, ghost changed: set<string>, crate: string, rdeps: set<string>,
                affected: set<string>, queue: seq<string>) returns (affected': set<string>, queue': seq<string>)
    requires rdeps == Rdeps(g, crate) && crate in affected && Found(g, changed, affected, queue)
    requires Explored(g, affected, queue + [crate])
    ensures Found(g, changed, affected', queue') && Explored(g, affected', queue')
    ensures affected < affected' || (affected' == affected && queue' == queue)
  {
    affected', queue' := affected, queue;
    var left := rdeps;
    while left != {}
      invariant left <= rdeps && rdeps - left <= affected' && affected <= affected'
      invariant affected' == affected ==> queue' == queue
      invariant Found(g, changed, affected', queue') && Explored(g, affected', queue' + [crate])
    {
      var rdep :| rdep in left;
      left := left - {rdep};
      if rdep !in affected' {
        FoundOneMore(g, changed, crate, rdep, affected', queue');
        affected' := affected' + {rdep};
        queue' := queue' + [rdep];
      }
    }
  }

  /** Exactly the crates reached from a changed one, on every graph, cyclic or not. */
  method TransitiveRdeps(changed: set<string>, reverse: Graph) returns (affected: set<string>)
    ensures forall c :: c in affected <==> Reached(reverse, changed, c)
  {
    affected := changed;
    var queue := Listed(changed);
    AllReached(reverse, changed);
    ghost var all := changed + Dependents(reverse);
    while queue != []
      invariant Found(reverse, changed, affected, queue) && Explored(reverse, affected, queue)
      decreases all - affected, |queue|
    {
      var crate := queue[|queue| - 1];
      assert queue == queue[..|queue| - 1] + [crate];
      ghost var before, rest := affected, queue[..|queue| - 1];
      queue := queue[..|queue| - 1];
      affected, queue := Expand(reverse, changed, crate, Rdeps(reverse, crate), affected, queue);
      assert before < affected ==> exists c :: c in affected && c !in before;
    }
    forall c | Reached(reverse, changed, c)
      ensures c in affected
    {
      var path :| Walk(reverse, changed, path) && path[|path| - 1] == c;
      ClosedHoldsWalk(reverse, changed, affected, path, |path| - 1);
    }
  }

  // ------------------------------------------------------- from changed files to crates

  /** A change to one of these, or below one of them, affects every crate. */
  const WORKSPACE_ROOT_PATTERNS := [
    "Cargo.toml", "Cargo.lock", ".cargo/", "rust-toolchain.toml", "Justfile", "etc/just/build.just",
    "etc/just/check.just", "etc/scripts/local/affected-crates.py", ".github/actions/setup/"
  ]

  predicate IsRootFile(f: string) {
    exists p :: p in WORKSPACE_ROOT_PATTERNS && (f == p || p <= f)
  }

  predicate InDir(f: string, d: string) {
    d + "/" <= f || f == d
  }

  // ------------------------------------------------------------ paths by their components

  /** The components with one more character in front. */
  function Consed(c: char, parts: seq<string>): seq<string>
    requires parts != []
  {
    if c == '/' then [""] + parts else [[c] + parts[0]] + parts[1..]
  }

  function Components(path: string): (parts: seq<string>)
    ensures parts != []
  {
    if path == "" then [""] else Consed(path[0], Components(path[1..]))
  }

  lemma FirstComponent(path: string)
    ensures Components(path)[0] == "" <==> path == "" || path[0] == '/'
    ensures path == "" ==> Components(path) == [""]
    ensures path != "" && path[0] == '/' ==> Components(path)[1..] == Components(path[1..])
    ensures path != "" && path[0] != '/' ==>
      && Components(path)[0] == [path[0]] + Components(path[1..])[0]
      && Components(path)[1..] == Components(path[1..])[1..]
  {
  }

  lemma ConsedConcat(c: char, a: seq<string>, b: seq<string>)
    requires a != []
    ensures Consed(c, a + b) == Consed(c, a) + b
  {
    assert (a + b)[1..] == a[1..] + b;
  }

  lemma {:induction false} ComponentsSplit(d: string, rest: string)
    ensures Components(d + "/" + rest) == Components(d) + Components(rest)
  {
    var f := d + "/" + rest;
    if d == "" {
      assert f[1..] == rest;
    } else {
      ComponentsSplit(d[1..], rest);
      assert f[1..] == d[1..] + "/" + rest && f[0] == d[0];
      ConsedConcat(d[0], Components(d[1..]), Components(rest));
    }
  }

  lemma JoinFirst(parts: seq<string>)
    requires parts != []
    ensures parts == [parts[0]] + parts[1..]
  {
  }

  lemma {:induction false} PrefixOfComponents(f: string, d: string)
    requires Components(d) <= Components(f)
    ensures d + "/" <= f || f == d
  {
    FirstComponent(f);
    FirstComponent(d);
    hide Components;
    var x, y := Components(d), Components(f);
    assert x[0] == y[0] && x[1..] <= y[1..];
    if d != "" && f != "" {
      if d[0] != '/' {
        assert x[0][0] == d[0] && y[0][0] == f[0];
        SameTail(d[0], Components(d[1..])[0], Components(f[1..])[0]);
        JoinFirst(Components(d[1..]));
        JoinFirst(Components(f[1..]));
      }
      PrefixOfComponents(f[1..], d[1..]);
      assert d == [d[0]] + d[1..] && f == [f[0]] + f[1..];
    }
  }

  lemma SameTail(c: char, s: string, t: string)
    requires [c] + s == [c] + t
    ensures s == t
  {
    assert ([c] + s)[1..] == s && ([c] + t)[1..] == t;
  }

  /** A file is in a directory when the directory's components are the first of its own. */
  lemma InDirByComponents(f: string, d: string)
    ensures InDir(f, d) <==> Components(d) <= Components(f)
  {
    if InDir(f, d) && f != d {
      ComponentsSplit(d, f[|d| + 1..]);
      assert f == d + "/" + f[|d| + 1..];
    }
    if Components(d) <= Components(f) {
      PrefixOfComponents(f, d);
    }
  }

  ghost predicate StartsWithOne(f: string, ps: seq<string>) {
    exists p :: p in ps && (f == p || p <= f)
  }

  lemma StartsWithHead(f: string, p: string, ps: seq<string>)
    ensures StartsWithOne(f, [p] + ps) <==> p <= f || StartsWithOne(f, ps)
  {
    assert p in [p] + ps;
    if StartsWithOne(f, ps) {
      var q :| q in ps && (f == q || q <= f);
      assert q in [p] + ps;
    }
  }

  lemma AllPatterns()
    ensures WORKSPACE_ROOT_PATTERNS == ["Cargo.toml"] + (["Cargo.lock"] + ([".cargo/"] + (["rust-toolchain.toml"] + (["Justfile"]
      + (["etc/just/build.just"] + (["etc/just/check.just"] + (["etc/scripts/local/affected-crates.py"]
      + ([".github/actions/setup/"] + []))))))))
  {
  }

  /** The files and directories whose change affects every crate. */
  lemma RootFiles(f: string)
    ensures IsRootFile(f) <==>
      || "Cargo.toml" <= f || "Cargo.lock" <= f || ".cargo/" <= f || "rust-toolchain.toml" <= f || "Justfile" <= f
      || "etc/just/build.just" <= f || "etc/just/check.just" <= f
      || "etc/scripts/local/affected-crates.py" <= f || ".github/actions/setup/" <= f
  {
    AllPatterns();
    assert IsRootFile(f) <==> StartsWithOne(f, WORKSPACE_ROOT_PATTERNS);
    hide StartsWithOne, IsRootFile;
    Nine(f, "Cargo.toml", "Cargo.lock", ".cargo/", "rust-toolchain.toml", "Justfile", "etc/just/build.just",
         "etc/just/check.just", "etc/scripts/local/affected-crates.py", ".github/actions/setup/");
  }

  lemma Nine(f: string, a: string, b: string, c: string, d: string, e: string, g: string, h: string, i: string, j: string)
    ensures StartsWithOne(f, [a] + ([b] + ([c] + ([d] + ([e] + ([g] + ([h] + ([i] + ([j] + [])))))))))
      <==> a <= f || b <= f || c <= f || d <= f || e <= f || g <= f || h <= f || i <= f || j <= f
  {
    assert !StartsWithOne(f, []);
    hide StartsWithOne;
    var r8 := [j] + [];
    var r7 := [i] + r8;
    var r6 := [h] + r7;
    var r5 := [g] + r6;
    var r4 := [e] + r5;
    var r3 := [d] + r4;
    var r2 := [c] + r3;
    StartsWithHead(f, a, [b] + r2);
    StartsWithHead(f, b, r2);
    StartsWithHead(f, c, r3);
    StartsWithHead(f, d, r4);
    StartsWithHead(f, e, r5);
    StartsWithHead(f, g, r6);
    StartsWithHead(f, h, r7);
    StartsWithHead(f, i, r8);
    StartsWithHead(f, j, []);
  }

  type CrateDirs = map<string, string>

  function CrateMap(packages: seq<Package>): CrateDirs {
    if packages == [] then map[]
    else
      var p := packages[|packages| - 1];
      CrateMap(packages[..|packages| - 1])[p.dir := p.name]
  }

  ghost predicate LastIn(packages: seq<Package>, i: nat, d: string) {
    i < |packages| && packages[i].dir == d && forall j :: i < j < |packages| ==> packages[j].dir != d
  }

  /** A directory belongs to the last package that has it. */
  lemma {:induction false} CrateMapMeans(packages: seq<Package>, i: nat, d: string)
    requires LastIn(packages, i, d)
    ensures d in CrateMap(packages) && CrateMap(packages)[d] == packages[i].name
  {
    if i < |packages| - 1 {
      CrateMapMeans(packages[..|packages| - 1], i, d);
    }
  }

  /** And to no crate when no package has it. */
  lemma {:induction false} NoStrayDirs(packages: seq<Package>, d: string) returns (i: nat)
    requires d in CrateMap(packages)
    ensures LastIn(packages, i, d)
  {
    i := |packages| - 1;
    if packages[i].dir != d {
      i := NoStrayDirs(packages[..i], d);
    }
  }

  method BuildCrateMap(packages: seq<Package>) returns (dirs: CrateDirs)
    ensures dirs == CrateMap(packages)
  {
    dirs := map[];
    for i := 0 to |packages|
      invariant dirs == CrateMap(packages[..i])
    {
      assert packages[..i + 1][..i] == packages[..i];
      dirs := dirs[packages[i].dir := packages[i].name];
    }
    assert packages[..|packages|] == packages;
  }

  /** The file's crate: the one with the longest directory that contains it. */
  ghost predicate Owns(dirs: CrateDirs, f: string, d: string) {
    d in dirs && InDir(f, d) && forall e :: e in dirs && InDir(f, e) ==> |e| <= |d|
  }

  /** No file has two. */
  lemma OwnerIsUnique(dirs: CrateDirs, f: string, d: string, e: string)
    requires Owns(dirs, f, d) && Owns(dirs, f, e)
    ensures d == e
  {
    assert d == f[..|d|] && e == f[..|e|];
  }

  predicate LongestFirst(ds: seq<string>) {
    forall i, j :: 0 <= i < j < |ds| ==> |ds[i]| >= |ds[j]|
  }

  method Longest(dirs: set<string>) returns (d: string)
    requires dirs != {}
    ensures d in dirs && forall e :: e in dirs ==> |e| <= |d|
  {
    d :| d in dirs;
    var left := dirs - {d};
    while left != {}
      invariant d in dirs && left <= dirs && forall e :: e in dirs - left ==> |e| <= |d|
    {
      var e :| e in left;
      left := left - {e};
      if |e| > |d| {
        d := e;
      }
    }
  }

  method SortedDirs(dirs: set<string>) returns (sorted: seq<string>)
    ensures LongestFirst(sorted) && forall d :: d in sorted <==> d in dirs
  {
    sorted := [];
    var left := dirs;
    while left != {}
      invariant left <= dirs && LongestFirst(sorted) && forall d :: d in sorted <==> d in dirs - left
      invariant forall d, e :: d in sorted && e in left ==> |d| >= |e|
    {
      var d := Longest(left);
      sorted, left := sorted + [d], left - {d};
    }
  }

  method OwnerOf(f: string, sorted: seq<string>, dirs: CrateDirs) returns (d: Option<string>)
    requires LongestFirst(sorted) && forall e :: e in sorted <==> e in dirs
    ensures match d case Some(e) => Owns(dirs, f, e) case None => forall e :: e in dirs ==> !InDir(f, e)
  {
    for i := 0 to |sorted|
      invariant forall k :: 0 <= k < i ==> !InDir(f, sorted[k])
    {
      if InDir(f, sorted[i]) {
        return Some(sorted[i]);
      }
    }
    d := None;
  }

  ghost predicate HasRootFile(files: seq<string>) {
    exists f :: f in files && IsRootFile(f)
  }

  ghost predicate OwnsOne(dirs: CrateDirs, files: seq<string>, name: string) {
    exists f, d :: f in files && Owns(dirs, f, d) && dirs[d] == name
  }

  /** A crate is changed when it owns a changed file, and every crate is when a
      workspace-root file changed. */
  ghost predicate Changed(packages: seq<Package>, files: seq<string>, name: string) {
    if HasRootFile(files) then name in Names(packages) else OwnsOne(CrateMap(packages), files, name)
  }

  lemma OneMoreFile(dirs: CrateDirs, files: seq<string>, i: nat, d: Option<string>, name: string)
    requires i < |files|
    requires match d case Some(e) => Owns(dirs, files[i], e) case None => forall e :: e in dirs ==> !InDir(files[i], e)
    ensures OwnsOne(dirs, files[..i + 1], name) <==> OwnsOne(dirs, files[..i], name) || (d.Some? && dirs[d.value] == name)
  {
    assert files[..i + 1] == files[..i] + [files[i]];
    if OwnsOne(dirs, files[..i + 1], name) {
      var f, e :| f in files[..i + 1] && Owns(dirs, f, e) && dirs[e] == name;
      if f == files[i] && d.Some? {
        OwnerIsUnique(dirs, f, e, d.value);
      }
    }
  }

  ghost predicate Owners(dirs: CrateDirs, files: seq<string>, changed: set<string>) {
    forall n :: n in changed <==> OwnsOne(dirs, files, n)
  }

  lemma OwnersStep(dirs: CrateDirs, files: seq<string>, i: nat, d: Option<string>, changed: set<string>)
    requires i < |files| && Owners(dirs, files[..i], changed)
    requires match d case Some(e) => Owns(dirs, files[i], e) case None => forall e :: e in dirs ==> !InDir(files[i], e)
    ensures Owners(dirs, files[..i + 1], if d.Some? then changed + {dirs[d.value]} else changed)
  {
    forall n
      ensures OwnsOne(dirs, files[..i + 1], n) <==> OwnsOne(dirs, files[..i], n) || (d.Some? && dirs[d.value] == n)
    {
      OneMoreFile(dirs, files, i, d, n);
    }
  }

  lemma RootStep(files: seq<string>, i: nat)
    requires i < |files| && !HasRootFile(files[..i])
    ensures HasRootFile(files[..i + 1]) <==> IsRootFile(files[i])
    ensures IsRootFile(files[i]) ==> HasRootFile(files)
  {
    assert files[..i + 1] == files[..i] + [files[i]];
    assert files[i] in files;
  }

  method ChangedCrates(files: seq<string>, packages: seq<Package>) returns (changed: set<string>)
    ensures forall n :: n in changed <==> Changed(packages, files, n)
  {
    var dirs := BuildCrateMap(packages);
    var sorted := SortedDirs(dirs.Keys);
    changed := {};
    for i := 0 to |files|
      invariant !HasRootFile(files[..i]) && Owners(dirs, files[..i], changed)
    {
      RootStep(files, i);
      if IsRootFile(files[i]) {
        return Names(packages);
      }
      var d := OwnerOf(files[i], sorted, dirs);
      OwnersStep(dirs, files, i, d, changed);
      if d.Some? {
        changed := changed + {dirs[d.value]};
      }
    }
    assert files[..|files|] == files;
  }

  /** A chain of dependencies from `path`'s last crate down to a changed one. */
  ghost predicate DependencyPath(packages: seq<Package>, files: seq<string>, path: seq<string>) {
    && path != [] && Changed(packages, files, path[0])
    && forall i :: 0 < i < |path| ==> DependsOn(packages, path[i], path[i - 1])
  }

  /** The whole script: the workspace crates, except the excluded, that are changed or
      depend on a changed crate through any number of workspace crates. */
  method Affected(files: seq<string>, packages: seq<Package>, exclude: set<string>) returns (affected: set<string>)
    ensures forall n ::
      n in affected <==>
      && n in Names(packages) && n !in exclude
      && exists path :: DependencyPath(packages, files, path) && path[|path| - 1] == n
  {
    var changed := ChangedCrates(files, packages);
    var reverse := BuildReverseDeps(packages);
    var reached := TransitiveRdeps(changed, reverse);
    forall path
      ensures Walk(reverse, changed, path) <==> DependencyPath(packages, files, path)
    {
    }
    affected := reached * Names(packages) - exclude;
  }
}
