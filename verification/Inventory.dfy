/** The build inventory lint (build_inventory.py:189-253): the directories some build configures, and the declared
    projects that none does. */
module Inventory {
  import opened Closure

  /** The argument of an `add_subdirectory`: a path, or one that a variable is part of. */
  datatype Arg = Literal(path: string) | Variable(text: string)

  /** A repository: the arguments of each CMake file by its resolved directory, how a path resolves, and where a path
      leads from a resolved directory, itself resolved. */
  datatype Site = Site(lists: map<string, seq<Arg>>, resolve: string -> string, child: (string, string) -> string)

  /** Resolving a resolved path changes nothing. */
  ghost predicate Sane(site: Site) {
    forall dir: string, path: string :: site.resolve(site.child(dir, path)) == site.child(dir, path)
  }

  function ChildrenOf(site: Site, dir: string, args: seq<Arg>): set<string> {
    set k | 0 <= k < |args| && args[k].Literal? :: site.child(dir, args[k].path)
  }

  /** The literal edges between directories. */
  function Subdirectories(site: Site): Edges {
    map dir | dir in site.lists :: ChildrenOf(site, dir, site.lists[dir])
  }

  /** Where the edges of a directory as spelled lead. */
  function LeadsTo(site: Site, dir: string): set<string> {
    if site.resolve(dir) in site.lists then ChildrenOf(site, site.resolve(dir), site.lists[site.resolve(dir)]) else {}
  }

  /** All the directories the walk can meet. */
  function Universe(site: Site, roots: seq<string>): set<string> {
    (set root <- roots) + set dir, k | dir in site.lists && 0 <= k < |site.lists[dir]| && site.lists[dir][k].Literal? ::
      site.child(dir, site.lists[dir][k].path)
  }

  /** A directory is configured when literal edges lead to it from a root. */
  ghost predicate Configured(site: Site, roots: seq<string>, dir: string) {
    exists root :: root in roots && Reach(Subdirectories(site), site.resolve(root), dir)
  }

  /** A path that was not resolved: the directory as spelled, and the argument. */
  datatype Unresolved = Unresolved(dir: string, text: string)

  /** What the walk keeps: the roots are covered; what is covered is configured and inside the universe; and the edges of
      what is covered lead to what is covered, but for what is pending. */
  ghost predicate Walking(site: Site, roots: seq<string>, covered: set<string>, pending: set<string>) {
    && pending <= covered <= Universe(site, roots)
    && (forall root <- roots :: root in covered)
    && (forall dir <- covered :: Configured(site, roots, site.resolve(dir)))
    && (forall dir <- covered - pending :: LeadsTo(site, dir) <= covered)
  }

  lemma ChildConfigured(site: Site, roots: seq<string>, dir: string, child: string)
    requires Sane(site) && Configured(site, roots, site.resolve(dir)) && child in LeadsTo(site, dir)
    ensures Configured(site, roots, site.resolve(child)) && child in Universe(site, roots)
  {
    var from := site.resolve(dir);
    var k :| 0 <= k < |site.lists[from]| && site.lists[from][k].Literal? && site.child(from, site.lists[from][k].path) == child;
    var root :| root in roots && Reach(Subdirectories(site), site.resolve(root), from);
    assert Edge(Subdirectories(site), from, child);
    ReachStep(Subdirectories(site), site.resolve(root), from, child);
  }

  /** The loop over a file's calls: what is not covered yet is covered and made pending. */
  method VisitCalls(site: Site, dir: string, args: seq<Arg>, covered: set<string>)
    returns (found: seq<string>, reported: seq<Unresolved>)
    requires site.resolve(dir) in site.lists && args == site.lists[site.resolve(dir)]
    ensures forall child :: child in found <==> child in LeadsTo(site, dir) && child !in covered
    ensures forall u: Unresolved :: u in reported <==> u.dir == dir && Variable(u.text) in args
  {
    found, reported := [], [];
    for i := 0 to |args|
      invariant forall child :: child in found <==> child in ChildrenOf(site, site.resolve(dir), args[..i]) && child !in covered
      invariant forall u: Unresolved :: u in reported <==> u.dir == dir && Variable(u.text) in args[..i]
    {
      assert args[..i + 1] == args[..i] + [args[i]];
      ChildrenNext(site, site.resolve(dir), args, i);
      match args[i] {
        case Variable(text) => reported := reported + [Unresolved(dir, text)];
        case Literal(path) =>
          var child := site.child(site.resolve(dir), path);
          if child !in covered && child !in found { found := found + [child]; }
      }
    }
    assert args[..|args|] == args;
  }

  lemma ChildrenNext(site: Site, dir: string, args: seq<Arg>, i: nat)
    requires i < |args|
    ensures ChildrenOf(site, dir, args[..i + 1])
            == ChildrenOf(site, dir, args[..i]) + if args[i].Literal? then {site.child(dir, args[i].path)} else {}
  {
    var more := args[..i + 1];
    assert forall k :: 0 <= k < i ==> more[k] == args[..i][k];
    assert more[i] == args[i];
    if args[i].Literal? { assert site.child(dir, more[i].path) in ChildrenOf(site, dir, more); }
    forall child | child in ChildrenOf(site, dir, args[..i]) ensures child in ChildrenOf(site, dir, more) {
      var k :| 0 <= k < i && args[..i][k].Literal? && site.child(dir, args[..i][k].path) == child;
      assert more[k].Literal? && site.child(dir, more[k].path) == child;
    }
  }

  /** `configured_dirs`: THE COVERAGE IS THE LEAST FIXPOINT of the literal edges from the roots, and every unresolved path
      of a covered directory is reported. */
  method ConfiguredDirs(site: Site, roots: seq<string>) returns (covered: set<string>, unresolved: seq<Unresolved>)
    requires Sane(site)
    ensures forall dir: string :: dir in Resolved(site, covered) <==> Configured(site, roots, dir)
    ensures forall u: Unresolved :: u in unresolved <==>
              u.dir in covered && site.resolve(u.dir) in site.lists && Variable(u.text) in site.lists[site.resolve(u.dir)]
  {
    hide Configured, Universe, LeadsTo, Reports;
    covered, unresolved := set root <- roots, [];
    var pending := roots;
    RootsWalk(site, roots);
    while pending != []
      invariant Walking(site, roots, covered, set dir <- pending)
      invariant Reported(site, covered, (set dir <- pending), unresolved)
      decreases Universe(site, roots) - covered, |pending|
    {
      var current := pending[|pending| - 1];
      ghost var left := set dir <- pending;
      LastOf(pending);
      pending := pending[..|pending| - 1];
      var found, reported := VisitCurrent(site, current, covered);
      TurnWalks(site, roots, covered, left, current, found, set dir <- pending + found);
      TurnReports(site, covered, left, current, found, (set dir <- pending + found), unresolved, reported);
      ghost var before := covered;
      covered, pending, unresolved := covered + (set dir <- found), pending + found, unresolved + reported;
      if found == [] {
        assert covered == before;
      } else {
        assert found[0] in found && found[0] in covered && found[0] !in before;
        assert found[0] in Universe(site, roots) - before;
      }
    }
    WalkCovers(site, roots, covered);
    AllReported(site, covered, unresolved);
  }

  lemma LastOf(pending: seq<string>)
    requires pending != []
    ensures var current, rest := pending[|pending| - 1], pending[..|pending| - 1];
            (set dir <- pending) == (set dir <- rest) + {current}
  {
    assert pending == pending[..|pending| - 1] + [pending[|pending| - 1]];
  }

  /** The body of the loop: nothing where there is no file. */
  method VisitCurrent(site: Site, current: string, covered: set<string>)
    returns (found: seq<string>, reported: seq<Unresolved>)
    ensures forall child :: child in found <==> child in LeadsTo(site, current) && child !in covered
    ensures forall u: Unresolved :: u in reported <==> u.dir == current && Reports(site, u)
  {
    found, reported := [], [];
    if site.resolve(current) in site.lists {
      found, reported := VisitCalls(site, current, site.lists[site.resolve(current)], covered);
    }
  }

  /** What was reported: unresolved paths of covered directories, and all those of directories no longer pending. */
  ghost predicate Reported(site: Site, covered: set<string>, pending: set<string>, unresolved: seq<Unresolved>) {
    && (forall u: Unresolved :: u in unresolved ==> u.dir in covered && Reports(site, u))
    && (forall u: Unresolved :: u.dir in covered && u.dir !in pending && Reports(site, u) ==> u in unresolved)
  }

  lemma TurnReports(site: Site, covered: set<string>, left: set<string>, current: string, more: seq<string>,
                    pending: set<string>, unresolved: seq<Unresolved>, reported: seq<Unresolved>)
    requires Reported(site, covered, left, unresolved) && current in left && left <= covered
    requires forall u: Unresolved :: u in reported <==> u.dir == current && Reports(site, u)
    requires left - {current} <= pending && (set dir <- more) <= pending
    ensures Reported(site, covered + (set dir <- more), pending, unresolved + reported)
  {
    hide Reports;
  }

  lemma AllReported(site: Site, covered: set<string>, unresolved: seq<Unresolved>)
    requires Reported(site, covered, {}, unresolved)
    ensures forall u: Unresolved :: u in unresolved <==>
              u.dir in covered && site.resolve(u.dir) in site.lists && Variable(u.text) in site.lists[site.resolve(u.dir)]
  {
    forall u: Unresolved | u.dir in covered && Reports(site, u) ensures u in unresolved { assert u.dir !in {}; }
  }

  predicate Reports(site: Site, u: Unresolved) {
    site.resolve(u.dir) in site.lists && Variable(u.text) in site.lists[site.resolve(u.dir)]
  }

  function Resolved(site: Site, dirs: set<string>): set<string> {
    set dir <- dirs :: site.resolve(dir)
  }

  lemma RootsWalk(site: Site, roots: seq<string>)
    ensures Walking(site, roots, set root <- roots, set root <- roots)
  {
    forall root | root in roots ensures Configured(site, roots, site.resolve(root)) {
      ReachSelf(Subdirectories(site), site.resolve(root));
    }
  }

  lemma TurnWalks(site: Site, roots: seq<string>, covered: set<string>, left: set<string>, current: string,
                  more: seq<string>, pending: set<string>)
    requires Sane(site) && Walking(site, roots, covered, left) && current in left
    requires forall child :: child in more <==> child in LeadsTo(site, current) && child !in covered
    requires left - {current} <= pending <= left + (set dir <- more) && (set dir <- more) <= pending
    ensures Walking(site, roots, covered + (set dir <- more), pending)
  {
    hide Configured, Universe;
    forall child | child in more
      ensures Configured(site, roots, site.resolve(child)) && child in Universe(site, roots)
    {
      ChildConfigured(site, roots, current, child);
    }
  }

  lemma WalkCovers(site: Site, roots: seq<string>, covered: set<string>)
    requires Sane(site) && Walking(site, roots, covered, {})
    ensures forall dir: string :: dir in Resolved(site, covered) <==> Configured(site, roots, dir)
  {
    var e := Subdirectories(site);
    forall a, b | a in Resolved(site, covered) && Edge(e, a, b) ensures b in Resolved(site, covered) {
      var dir :| dir in covered && site.resolve(dir) == a;
      assert b in LeadsTo(site, dir) && b in covered;
      var k :| 0 <= k < |site.lists[a]| && site.lists[a][k].Literal? && site.child(a, site.lists[a][k].path) == b;
      assert site.resolve(b) == b;
    }
    forall dir | Configured(site, roots, dir) ensures dir in Resolved(site, covered) {
      var root :| root in roots && Reach(e, site.resolve(root), dir);
      assert root in covered && site.resolve(root) in Resolved(site, covered);
      ClosedHoldsReached(e, Resolved(site, covered), site.resolve(root), dir);
    }
  }

  /* ---------------------------------------------------------------- orphans */

  /** A repository with its roots and the directories, resolved, of the projects it declares. */
  datatype Repo = Repo(site: Site, roots: seq<string>, projects: seq<string>)

  ghost predicate Orphan(repo: Repo, project: string) {
    project in repo.projects && !Configured(repo.site, repo.roots, project)
  }

  /** `run_lint`: 2 when no repository declares a project, 1 exactly when some declared project is an orphan. */
  method Lint(repos: seq<Repo>) returns (code: int)
    requires forall repo <- repos :: Sane(repo.site)
    ensures code == 2 <==> forall repo <- repos :: repo.projects == []
    ensures code == 1 <==> exists r, project :: 0 <= r < |repos| && Orphan(repos[r], project)
    ensures code == 0 || code == 1 || code == 2
  {
    var declared, orphans := 0, 0;
    for r := 0 to |repos|
      invariant 0 <= orphans <= declared
      invariant declared == 0 <==> forall repo <- repos[..r] :: repo.projects == []
      invariant orphans > 0 <==> exists q, project :: 0 <= q < r && Orphan(repos[q], project)
    {
      var repo := repos[r];
      assert repo in repos && repos[..r + 1] == repos[..r] + [repo];
      var covered, unresolved := ConfiguredDirs(repo.site, repo.roots);
      var known := Resolved(repo.site, covered);
      var count := CountOrphans(repo, known);
      declared, orphans := declared + |repo.projects|, orphans + count;
    }
    assert repos[..|repos|] == repos;
    code := if declared == 0 then 2 else if orphans == 0 then 0 else 1;
  }

  method CountOrphans(repo: Repo, known: set<string>) returns (orphans: nat)
    requires forall dir :: dir in known <==> Configured(repo.site, repo.roots, dir)
    ensures orphans <= |repo.projects| && (orphans > 0 <==> exists project :: Orphan(repo, project))
  {
    orphans := 0;
    for i := 0 to |repo.projects|
      invariant orphans <= i
      invariant orphans > 0 <==> exists project <- repo.projects[..i] :: project !in known
    {
      assert repo.projects[..i + 1] == repo.projects[..i] + [repo.projects[i]];
      if repo.projects[i] !in known { orphans := orphans + 1; }
    }
    assert repo.projects[..|repo.projects|] == repo.projects;
    if orphans > 0 {
      var project :| project in repo.projects && project !in known;
      assert Orphan(repo, project);
    }
  }

  /** `more` reads every literal path that `site` reads, and perhaps more: variables resolved. */
  ghost predicate ReadsMore(site: Site, more: Site) {
    && site.resolve == more.resolve && site.child == more.child
    && forall dir <- site.lists :: dir in more.lists
         && forall arg <- site.lists[dir] :: arg.Literal? ==> arg in more.lists[dir]
  }

  lemma EdgesGrow(site: Site, more: Site, a: string, b: string)
    requires ReadsMore(site, more) && Edge(Subdirectories(site), a, b)
    ensures Edge(Subdirectories(more), a, b)
  {
    var k :| 0 <= k < |site.lists[a]| && site.lists[a][k].Literal? && site.child(a, site.lists[a][k].path) == b;
    assert site.lists[a][k] in site.lists[a] && site.lists[a][k] in more.lists[a];
    var j :| 0 <= j < |more.lists[a]| && more.lists[a][j] == site.lists[a][k];
    assert more.lists[a][j].Literal? && more.child(a, more.lists[a][j].path) == b;
  }

  lemma ConfiguredGrows(site: Site, more: Site, roots: seq<string>, project: string)
    requires ReadsMore(site, more) && Configured(site, roots, project)
    ensures Configured(more, roots, project)
  {
    var root :| root in roots && Reach(Subdirectories(site), site.resolve(root), project);
    var path :| IsPath(Subdirectories(site), path) && path[0] == site.resolve(root) && path[|path| - 1] == project;
    forall i | 0 <= i < |path| - 1 ensures Edge(Subdirectories(more), path[i], path[i + 1]) {
      EdgesGrow(site, more, path[i], path[i + 1]);
    }
    assert IsPath(Subdirectories(more), path);
    assert Reach(Subdirectories(more), more.resolve(root), project);
  }

  /** DECLINING TO RESOLVE ONLY ADDS ORPHANS: whatever more paths were resolved, every orphan there is an orphan here. */
  lemma UnresolvedOnlyAddsOrphans(site: Site, more: Site, roots: seq<string>, projects: seq<string>, project: string)
    requires ReadsMore(site, more) && Orphan(Repo(more, roots, projects), project)
    ensures Orphan(Repo(site, roots, projects), project)
  {
    if Configured(site, roots, project) { ConfiguredGrows(site, more, roots, project); }
  }
}
