/** The walks over the workspace's recipes (malf_graph.py:151-286, 307-356): a requirement is resolved to a member, and the
    members a target reaches are listed, each once, dependencies first. */
module RecipeGraph {
  import opened Closure

  datatype Recipe = Recipe(dir: string, requirements: seq<string>, testRequirements: seq<string>)

  /** The members, in the order they were found. */
  datatype Workspace = Workspace(refs: seq<string>, recipes: map<string, Recipe>)

  datatype Resolution = Found(ref: string) | NotOurs | Ambiguous

  datatype Row = Row(ref: string, dir: string, names: set<string>)

  datatype Outcome = Rows(rows: seq<Row>) | Refused

  predicate Listed(w: Workspace) {
    Distinct(w.refs) && (forall r <- w.refs :: r in w.recipes) && (forall r <- w.recipes.Keys :: r in w.refs)
  }

  /* ---------------------------------------------------------------- resolving a requirement */

  /** The text before the first slash, and the text after it. */
  function NameOf(ref: string): string {
    if ref == "" || ref[0] == '/' then "" else [ref[0]] + NameOf(ref[1..])
  }

  function VersionOf(ref: string): string {
    if ref == "" then "" else if ref[0] == '/' then ref[1..] else VersionOf(ref[1..])
  }

  function Matches(refs: seq<string>, name: string): seq<string> {
    if refs == [] then []
    else
      Matches(refs[..|refs| - 1], name)
      + if NameOf(refs[|refs| - 1]) == name then [refs[|refs| - 1]] else []
  }

  /** `resolve_ref`. */
  function Resolve(dep: string, refs: seq<string>): (r: Resolution)
    ensures r.Found? ==> r.ref in refs
  {
    if dep in refs then Found(dep)
    else if '[' !in VersionOf(dep) then NotOurs
    else
      var matches := Matches(refs, NameOf(dep));
      MatchesAre(refs, NameOf(dep));
      if matches == [] then NotOurs
      else if |matches| > 1 then Ambiguous
      else assert matches[0] in matches; Found(matches[0])
  }

  lemma {:induction false} MatchesAre(refs: seq<string>, name: string)
    ensures forall r :: r in Matches(refs, name) <==> r in refs && NameOf(r) == name
    ensures Distinct(refs) ==> Distinct(Matches(refs, name))
  {
    if refs != [] {
      MatchesAre(refs[..|refs| - 1], name);
      assert refs == refs[..|refs| - 1] + [refs[|refs| - 1]];
    }
  }

  predicate IsRange(dep: string, refs: seq<string>) {
    dep !in refs && '[' in VersionOf(dep)
  }

  /** A RANGE IS RESOLVED BY NAME, and only when one member has it: it is found exactly as the only member of its name,
      refused exactly when two members share the name, and otherwise not ours. */
  lemma RangeByName(dep: string, refs: seq<string>, ref: string)
    requires Distinct(refs) && IsRange(dep, refs)
    ensures Resolve(dep, refs) == Found(ref) <==>
            ref in refs && NameOf(ref) == NameOf(dep) && forall r <- refs :: NameOf(r) == NameOf(dep) ==> r == ref
    ensures Resolve(dep, refs) == Ambiguous <==>
            exists a, b :: a in refs && b in refs && a != b && NameOf(a) == NameOf(b) == NameOf(dep)
  {
    var matches := Matches(refs, NameOf(dep));
    MatchesAre(refs, NameOf(dep));
    if |matches| > 1 {
      assert matches[0] in matches && matches[1] in matches && matches[0] != matches[1];
    }
    if |matches| == 1 { assert forall r <- matches :: r == matches[0]; }
  }

  /** A reference is a name and a version about its first slash, or a name alone. */
  lemma {:induction false} RefParts(name: string, version: string)
    requires '/' !in name
    ensures NameOf(name + ("/" + version)) == name && VersionOf(name + ("/" + version)) == version
    ensures NameOf(name) == name && VersionOf(name) == ""
  {
    if name == "" {
      assert "" + ("/" + version) == "/" + version && ("/" + version)[1..] == version;
    } else {
      assert name[0] in name && forall c <- name[1..] :: c in name;
      assert (name + ("/" + version))[1..] == name[1..] + ("/" + version);
      RefParts(name[1..], version);
    }
  }

  /** The requirement is the member, or it is no member but a range whose name this member alone bears. */
  predicate LeadsTo(dep: string, refs: seq<string>, ref: string) {
    ref in refs
    && (dep == ref
        || (dep !in refs && '[' in VersionOf(dep) && NameOf(ref) == NameOf(dep)
            && forall r <- refs :: NameOf(r) == NameOf(dep) ==> r == ref))
  }

  /** The requirement is no member but a range whose name two members bear. */
  ghost predicate Unclear(dep: string, refs: seq<string>) {
    dep !in refs && '[' in VersionOf(dep)
    && exists a, b :: a in refs && b in refs && a != b && NameOf(a) == NameOf(b) == NameOf(dep)
  }

  /** WHAT A REQUIREMENT LEADS TO: a member required exactly is found, whatever else shares its name; what is neither a
      member nor a range is not ours and never ambiguous; a range goes by name. */
  lemma ResolvesIff(dep: string, refs: seq<string>)
    requires Distinct(refs)
    ensures forall ref :: Resolve(dep, refs) == Found(ref) <==> LeadsTo(dep, refs, ref)
    ensures Resolve(dep, refs) == Ambiguous <==> Unclear(dep, refs)
  {
    if IsRange(dep, refs) {
      forall ref ensures Resolve(dep, refs) == Found(ref) <==> LeadsTo(dep, refs, ref) {
        RangeByName(dep, refs, ref);
      }
      RangeByName(dep, refs, "");
    }
  }

  /* ---------------------------------------------------------------- the graph of the members */

  function DepsOf(recipe: Recipe): seq<string> {
    recipe.requirements + recipe.testRequirements
  }

  /** The members the first requirements resolve to. */
  function Targets(deps: seq<string>, refs: seq<string>): set<string> {
    if deps == [] then {}
    else
      var last := Resolve(deps[|deps| - 1], refs);
      Targets(deps[..|deps| - 1], refs) + if last.Found? then {last.ref} else {}
  }

  lemma {:induction false} TargetsAre(deps: seq<string>, refs: seq<string>, b: string)
    ensures b in Targets(deps, refs) <==> exists k :: 0 <= k < |deps| && Resolve(deps[k], refs) == Found(b)
  {
    if deps != [] {
      TargetsAre(deps[..|deps| - 1], refs, b);
      assert forall k :: 0 <= k < |deps| - 1 ==> deps[..|deps| - 1][k] == deps[k];
    }
  }

  /** Each member's edges: its requirements and test requirements that resolve to members. */
  function EdgesOf(w: Workspace): Edges {
    map a | a in w.recipes :: Targets(DepsOf(w.recipes[a]), w.refs)
  }

  predicate NoneAmbiguous(deps: seq<string>, refs: seq<string>) {
    deps == [] || (NoneAmbiguous(deps[..|deps| - 1], refs) && !Resolve(deps[|deps| - 1], refs).Ambiguous?)
  }

  /** No requirement of the member is ambiguous. */
  predicate Decided(w: Workspace, a: string)
    requires a in w.recipes
  {
    NoneAmbiguous(DepsOf(w.recipes[a]), w.refs)
  }

  lemma {:induction false} NoneAmbiguousAre(deps: seq<string>, refs: seq<string>)
    ensures NoneAmbiguous(deps, refs) <==> forall dep <- deps :: !Resolve(dep, refs).Ambiguous?
  {
    if deps != [] {
      var before, last := deps[..|deps| - 1], deps[|deps| - 1];
      NoneAmbiguousAre(before, refs);
      assert forall dep :: dep in deps <==> dep in before || dep == last;
    }
  }

  /** A requirement or a test requirement of the member. */
  predicate Needs(w: Workspace, a: string, dep: string) {
    a in w.recipes && (dep in w.recipes[a].requirements || dep in w.recipes[a].testRequirements)
  }

  /** THE EDGES: from each member to what its requirements and its test requirements lead to, and to nothing else. */
  lemma EdgeIff(w: Workspace, a: string, b: string)
    requires Listed(w)
    ensures Edge(EdgesOf(w), a, b) <==> exists dep :: Needs(w, a, dep) && LeadsTo(dep, w.refs, b)
  {
    hide LeadsTo, Resolve;
    if a in w.recipes {
      var deps := DepsOf(w.recipes[a]);
      TargetsAre(deps, w.refs, b);
      assert forall dep :: dep in deps <==> Needs(w, a, dep);
      forall dep: string ensures Resolve(dep, w.refs) == Found(b) <==> LeadsTo(dep, w.refs, b) {
        ResolvesIff(dep, w.refs);
      }
      if dep :| Needs(w, a, dep) && LeadsTo(dep, w.refs, b) {
        var k :| 0 <= k < |deps| && deps[k] == dep;
      }
      if k :| 0 <= k < |deps| && Resolve(deps[k], w.refs) == Found(b) {
        assert Needs(w, a, deps[k]);
      }
    }
  }

  lemma DecidedIff(w: Workspace, a: string)
    requires Listed(w) && a in w.recipes
    ensures Decided(w, a) <==> forall dep :: Needs(w, a, dep) ==> !Unclear(dep, w.refs)
  {
    hide Unclear, Resolve;
    NoneAmbiguousAre(DepsOf(w.recipes[a]), w.refs);
    assert forall dep :: dep in DepsOf(w.recipes[a]) <==> Needs(w, a, dep);
    forall dep: string ensures Resolve(dep, w.refs).Ambiguous? <==> Unclear(dep, w.refs) {
      ResolvesIff(dep, w.refs);
    }
  }

  function NamesOf(refs: set<string>): set<string> {
    set r <- refs :: NameOf(r)
  }

  function RowOf(w: Workspace, ref: string): Row
    requires ref in w.recipes
  {
    Row(ref, w.recipes[ref].dir, NamesOf(EdgesOf(w)[ref]))
  }

  function RowsOf(w: Workspace, order: seq<string>): seq<Row>
    requires forall r <- order :: r in w.recipes
  {
    seq(|order|, i requires 0 <= i < |order| => RowOf(w, order[i]))
  }

  /** A requirement that is found is an edge, and whatever reached the member reaches the found one. */
  lemma EdgeTaken(w: Workspace, ref: string, i: nat, b: string, open: set<string>)
    requires Listed(w) && ref in w.recipes && i < |DepsOf(w.recipes[ref])|
    requires Resolve(DepsOf(w.recipes[ref])[i], w.refs) == Found(b)
    requires forall v <- open :: Reach(EdgesOf(w), v, ref)
    ensures Edge(EdgesOf(w), ref, b) && b in w.recipes
    ensures forall v <- open :: Reach(EdgesOf(w), v, b)
  {
    TargetsAre(DepsOf(w.recipes[ref]), w.refs, b);
    forall v | v in open ensures Reach(EdgesOf(w), v, b) { ReachStep(EdgesOf(w), v, ref, b); }
  }

  /** An undecided member is reached from `ref`. */
  ghost predicate ReachesUndecided(w: Workspace, ref: string) {
    exists a :: a in w.recipes && Reach(EdgesOf(w), ref, a) && !Decided(w, a)
  }

  /** A member reached from `ref` has a requirement that two members could meet. */
  ghost predicate ReachesUnclear(w: Workspace, ref: string) {
    exists a, dep :: Reach(EdgesOf(w), ref, a) && Needs(w, a, dep) && Unclear(dep, w.refs)
  }

  lemma UnclearIff(w: Workspace, ref: string)
    requires Listed(w)
    ensures ReachesUndecided(w, ref) <==> ReachesUnclear(w, ref)
  {
    hide Unclear, Decided, EdgesOf, Reach;
    forall a | a in w.recipes ensures Decided(w, a) <==> forall dep :: Needs(w, a, dep) ==> !Unclear(dep, w.refs) {
      DecidedIff(w, a);
    }
  }

  lemma FailurePropagates(w: Workspace, ref: string, b: string)
    requires Edge(EdgesOf(w), ref, b) && ReachesUndecided(w, b)
    ensures ReachesUndecided(w, ref)
  {
    var a :| a in w.recipes && Reach(EdgesOf(w), b, a) && !Decided(w, a);
    EdgeReaches(EdgesOf(w), ref, b);
    ReachThrough(EdgesOf(w), ref, b, a);
  }

  lemma VisitedAreReached(e: Edges, ref: string, b: string, visited: set<string>)
    requires Edge(e, ref, b) && forall r <- visited :: Reach(e, b, r)
    ensures forall r <- visited :: Reach(e, ref, r)
  {
    EdgeReaches(e, ref, b);
    forall r | r in visited ensures Reach(e, ref, r) { ReachThrough(e, ref, b, r); }
  }

  lemma OnlyNext(finished: seq<string>, wanted: set<string>, ref: string)
    ensures Only(finished + [ref], wanted) == Only(finished, wanted) + if ref in wanted then [ref] else []
  {
    assert (finished + [ref])[..|finished|] == finished;
  }

  lemma RowsOfJoin(w: Workspace, order: seq<string>, ref: string)
    requires ref in w.recipes && forall r <- order :: r in w.recipes
    ensures forall r <- order + [ref] :: r in w.recipes
    ensures RowsOf(w, order + [ref]) == RowsOf(w, order) + [RowOf(w, ref)]
  {
  }

  lemma EdgesAt(w: Workspace, ref: string)
    requires ref in w.recipes
    ensures ref in EdgesOf(w) && EdgesOf(w)[ref] == Targets(DepsOf(w.recipes[ref]), w.refs)
  {
  }

  /** What finishing a member adds. */
  lemma Leave(w: Workspace, finished: seq<string>, seen: set<string>, visiting: set<string>, ref: string,
              wanted: set<string>)
    requires Walked(EdgesOf(w), finished, seen, visiting) && ref in visiting && ref in w.recipes
    requires EdgesOf(w)[ref] <= seen + visiting && forall v <- visiting :: Reach(EdgesOf(w), v, ref)
    requires (forall r <- finished :: r in w.recipes) && forall r <- Only(finished, wanted) :: r in w.recipes
    ensures Walked(EdgesOf(w), finished + [ref], seen + {ref}, visiting - {ref})
    ensures forall r <- finished + [ref] :: r in w.recipes
    ensures forall r <- Only(finished + [ref], wanted) :: r in w.recipes
    ensures RowsOf(w, Only(finished + [ref], wanted))
            == RowsOf(w, Only(finished, wanted)) + if ref in wanted then [RowOf(w, ref)] else []
  {
    hide Walked, Reach, RowsOf, Only, EdgesOf;
    Finish(EdgesOf(w), finished, seen, visiting, ref);
    OnlyNext(finished, wanted, ref);
    if ref in wanted { RowsOfJoin(w, Only(finished, wanted), ref); }
    else { assert Only(finished, wanted) + [] == Only(finished, wanted); }
  }

  function SetOf(list: seq<string>): set<string> {
    if list == [] then {} else SetOf(list[..|list| - 1]) + {list[|list| - 1]}
  }

  lemma {:induction false} SetOfIs(list: seq<string>)
    ensures forall r :: r in SetOf(list) <==> r in list
  {
    if list != [] {
      SetOfIs(list[..|list| - 1]);
      assert list == list[..|list| - 1] + [list[|list| - 1]];
    }
  }

  /* ---------------------------------------------------------------- the walk */

  class Walk {
    const w: Workspace
    const wanted: set<string>
    var order: seq<Row>
    var seen: set<string>
    var visiting: set<string>
    ghost var finished: seq<string>

    ghost predicate Valid()
      reads this
    {
      && Listed(w) && Walked(EdgesOf(w), finished, seen, visiting)
      && (forall a <- seen :: Decided(w, a))
      && (forall r <- finished :: r in w.recipes) && (forall r <- Only(finished, wanted) :: r in w.recipes)
      && order == RowsOf(w, Only(finished, wanted))
    }

    constructor (w: Workspace, wanted: set<string>)
      requires Listed(w)
      ensures Valid() && this.w == w && this.wanted == wanted && seen == {} && visiting == {}
    {
      this.w, this.wanted := w, wanted;
      order, seen, visiting, finished := [], {}, {}, [];
    }

    /** A visit from outside the walk. */
    method VisitRoot(ref: string) returns (ok: bool)
      requires Valid() && ref in w.recipes && visiting == {}
      modifies this
      ensures ok ==> Valid() && visiting == {} && old(seen) <= seen && ref in seen
      ensures ok && old(seen) == {} ==> forall r <- seen :: Reach(EdgesOf(w), ref, r)
      ensures !ok ==> ReachesUndecided(w, ref)
      decreases w.recipes.Keys - seen - visiting, 3, 0
    {
      ok := Visit(ref);
    }

    /** `visit`: false when a requirement is ambiguous, which ends the program. */
    method Visit(ref: string) returns (ok: bool)
      requires Valid() && ref in w.recipes && forall v <- visiting :: Reach(EdgesOf(w), v, ref)
      modifies this
      ensures ok ==> Valid() && visiting == old(visiting) && old(seen) <= seen && (ref in seen || ref in visiting)
      ensures ok ==> forall r <- seen - old(seen) :: Reach(EdgesOf(w), ref, r)
      ensures !ok ==> ReachesUndecided(w, ref)
      decreases w.recipes.Keys - seen - visiting, 0, 0
    {
      hide Walked, Reach, ReachesUndecided, Decided, RowsOf, Only, EdgesOf, Targets, NamesOf, Listed;
      if ref in seen || ref in visiting { return true; }
      EdgesAt(w, ref);
      OpenKeeps(EdgesOf(w), finished, seen, visiting, ref);
      ReachSelf(EdgesOf(w), ref);
      visiting := visiting + {ref};
      var found;
      ok, found := VisitDeps(ref);
      if !ok { return; }
      Leave(w, finished, seen, visiting, ref, wanted);
      if ref in wanted { order := order + [Row(ref, w.recipes[ref].dir, NamesOf(found))]; }
      visiting := visiting - {ref};
      seen := seen + {ref};
      finished := finished + [ref];
    }

    /** The loop of `visit` over a member's requirements; `found` are the members found. */
    method VisitDeps(ref: string) returns (ok: bool, found: set<string>)
      requires Valid() && ref in w.recipes && ref in visiting && forall v <- visiting :: Reach(EdgesOf(w), v, ref)
      modifies this
      ensures ok ==> Valid() && visiting == old(visiting) && old(seen) <= seen && Decided(w, ref)
      ensures ok ==> forall r <- seen - old(seen) :: Reach(EdgesOf(w), ref, r)
      ensures ok ==> found == Targets(DepsOf(w.recipes[ref]), w.refs) && found <= seen + visiting
      ensures !ok ==> ReachesUndecided(w, ref)
      decreases w.recipes.Keys - seen - visiting, 2, 0
    {
      hide EdgesOf, Walked, RowsOf, Only, Reach, Targets, NoneAmbiguous;
      var deps := DepsOf(w.recipes[ref]);
      TargetsNone(w.refs);
      found := {};
      assert deps[..0] == [];
      for i := 0 to |deps|
        invariant Valid() && visiting == old(visiting) && old(seen) <= seen
        invariant forall r <- seen - old(seen) :: Reach(EdgesOf(w), ref, r)
        invariant found == Targets(deps[..i], w.refs) && found <= seen + visiting
        invariant NoneAmbiguous(deps[..i], w.refs)
      {
        ghost var before := seen;
        var resolved;
        ok, resolved := VisitDep(ref, i);
        if !ok { return; }
        SeenGrows(EdgesOf(w), ref, old(seen), before, seen);
        TargetsNext(deps, w.refs, i);
        if resolved.Found? { found := found + {resolved.ref}; }
      }
      assert deps[..|deps|] == deps;
      ok := true;
    }

    /** One requirement: resolved, and visited when it is a member. */
    method VisitDep(ref: string, i: nat) returns (ok: bool, resolved: Resolution)
      requires Valid() && ref in w.recipes && ref in visiting && forall v <- visiting :: Reach(EdgesOf(w), v, ref)
      requires i < |DepsOf(w.recipes[ref])|
      modifies this
      ensures resolved == Resolve(DepsOf(w.recipes[ref])[i], w.refs)
      ensures ok ==> Valid() && visiting == old(visiting) && old(seen) <= seen && !resolved.Ambiguous?
      ensures ok ==> forall r <- seen - old(seen) :: Reach(EdgesOf(w), ref, r)
      ensures ok && resolved.Found? ==> resolved.ref in seen || resolved.ref in visiting
      ensures !ok ==> ReachesUndecided(w, ref)
      decreases w.recipes.Keys - seen - visiting, 1, i
    {
      resolved := Resolve(DepsOf(w.recipes[ref])[i], w.refs);
      if resolved.Ambiguous? {
        assert DepsOf(w.recipes[ref])[i] in DepsOf(w.recipes[ref]);
        NoneAmbiguousAre(DepsOf(w.recipes[ref]), w.refs);
        ReachSelf(EdgesOf(w), ref);
        return false, resolved;
      }
      ok := true;
      if resolved.Found? {
        EdgeTaken(w, ref, i, resolved.ref, visiting);
        ok := Visit(resolved.ref);
        if !ok {
          FailurePropagates(w, ref, resolved.ref);
        } else {
          VisitedAreReached(EdgesOf(w), ref, resolved.ref, seen - old(seen));
        }
      }
    }
  }

  lemma TargetsNone(refs: seq<string>)
    ensures Targets([], refs) == {} && NoneAmbiguous([], refs)
  {
  }

  lemma SeenGrows(e: Edges, ref: string, a: set<string>, b: set<string>, c: set<string>)
    requires (forall r <- b - a :: Reach(e, ref, r)) && (forall r <- c - b :: Reach(e, ref, r))
    ensures forall r <- c - a :: Reach(e, ref, r)
  {
  }

  lemma TargetsNext(deps: seq<string>, refs: seq<string>, i: nat)
    requires i < |deps|
    ensures var r := Resolve(deps[i], refs);
            Targets(deps[..i + 1], refs) == (Targets(deps[..i], refs) + if r.Found? then {r.ref} else {})
            && (NoneAmbiguous(deps[..i + 1], refs) <==> NoneAmbiguous(deps[..i], refs) && !r.Ambiguous?)
  {
    assert deps[..i + 1][..i] == deps[..i];
  }

  /* ---------------------------------------------------------------- the modes */

  function RefsIn(rows: seq<Row>): seq<string> {
    seq(|rows|, i requires 0 <= i < |rows| => rows[i].ref)
  }

  lemma RefsInRows(w: Workspace, order: seq<string>)
    requires forall r <- order :: r in w.recipes
    ensures RefsIn(RowsOf(w, order)) == order
  {
  }

  /** The target's own parse stands for its member. */
  function WithTarget(w: Workspace, target: string, recipe: Recipe): Workspace {
    Workspace(if target in w.refs then w.refs else w.refs + [target], w.recipes[target := recipe])
  }

  /** `rows` are the members for which `listed` holds, each once, each with its directory and the names of its edges, and
      each after every member it leads to that does not lead back to it. */
  ghost predicate ListsInOrder(w: Workspace, rows: seq<Row>) {
    && Distinct(RefsIn(rows)) && Sorted(EdgesOf(w), RefsIn(rows))
    && forall row <- rows :: row.ref in w.recipes && row == RowOf(w, row.ref)
  }

  /** The rows are what the target reaches, itself left out. */
  ghost predicate ListsReached(w: Workspace, rows: seq<Row>, target: string) {
    forall r :: r in RefsIn(rows) <==> r != target && Reach(EdgesOf(w), target, r)
  }

  lemma RowsListInOrder(w: Workspace, finished: seq<string>, wanted: set<string>)
    requires Distinct(finished) && Sorted(EdgesOf(w), finished) && forall r <- finished :: r in w.recipes
    requires forall b, r :: b !in wanted && b in finished && r in finished ==> Reach(EdgesOf(w), b, r)
    requires forall r <- Only(finished, wanted) :: r in w.recipes
    ensures ListsInOrder(w, RowsOf(w, Only(finished, wanted)))
  {
    OnlySorted(EdgesOf(w), finished, wanted);
    OnlyDistinct(finished, wanted);
    RefsInRows(w, Only(finished, wanted));
  }

  /** `mode_deps`: THE BUILD CLOSURE. It is refused exactly when some member the target reaches has an ambiguous
      requirement; otherwise it lists exactly the members the target reaches, itself left out. */
  method Deps(workspace: Workspace, target: string, recipe: Recipe) returns (outcome: Outcome)
    requires Listed(workspace)
    ensures var w := WithTarget(workspace, target, recipe);
            outcome.Refused? <==> ReachesUnclear(w, target)
    ensures var w := WithTarget(workspace, target, recipe);
            outcome.Rows? ==> ListsInOrder(w, outcome.rows) && ListsReached(w, outcome.rows, target)
  {
    var w := WithTarget(workspace, target, recipe);
    ListedWithTarget(workspace, target, recipe);
    var walk := new Walk(w, w.recipes.Keys - {target});
    var ok := walk.VisitRoot(target);
    UnclearIff(w, target);
    if !ok { return Refused; }
    WalkIsClosed(EdgesOf(w), walk.finished, walk.seen);
    assert target in walk.seen;
    TargetWalked(w, target, walk.finished, walk.seen);
    OnlyMembers(walk.finished, walk.wanted);
    RefsInRows(w, Only(walk.finished, walk.wanted));
    RowsListInOrder(w, walk.finished, walk.wanted);
    outcome := Rows(walk.order);
  }

  lemma ListedWithTarget(w: Workspace, target: string, recipe: Recipe)
    requires Listed(w)
    ensures Listed(WithTarget(w, target, recipe)) && target in WithTarget(w, target, recipe).recipes
  {
  }

  /** A walk from the target finishes exactly what it reaches, all of it decided. */
  lemma TargetWalked(w: Workspace, target: string, finished: seq<string>, seen: set<string>)
    requires Walked(EdgesOf(w), finished, seen, {}) && target in seen && Closed(EdgesOf(w), seen)
    requires forall r <- seen :: r in w.recipes && Decided(w, r) && Reach(EdgesOf(w), target, r)
    ensures !ReachesUndecided(w, target)
    ensures forall r :: r in finished <==> Reach(EdgesOf(w), target, r)
  {
    forall r ensures Reach(EdgesOf(w), target, r) <==> r in seen {
      if Reach(EdgesOf(w), target, r) { ClosedHoldsReached(EdgesOf(w), seen, target, r); }
    }
  }

  /** `mode_members`, and the rows of `mode_steps`: EVERY MEMBER, dependencies first, from the starts given (the members
      by directory). It is refused exactly when some member has an ambiguous requirement. */
  method Members(w: Workspace, starts: seq<string>) returns (outcome: Outcome)
    requires Listed(w) && (forall r :: r in starts <==> r in w.recipes)
    ensures outcome.Refused? <==> exists a, dep :: Needs(w, a, dep) && Unclear(dep, w.refs)
    ensures outcome.Rows? ==> ListsInOrder(w, outcome.rows) && ListsAll(w, outcome.rows)
  {
    hide Needs, Unclear, AllDecided, ListsInOrder, ListsAll, Reach, Only, RowsOf;
    AllDecidedIff(w);
    var walk := new Walk(w, w.recipes.Keys);
    for i := 0 to |starts|
      invariant walk.Valid() && walk.w == w && walk.wanted == w.recipes.Keys && walk.visiting == {}
      invariant fresh(walk) && SetOf(starts[..i]) <= walk.seen
    {
      assert starts[i] in starts && starts[..i + 1][..i] == starts[..i];
      var ok := walk.VisitRoot(starts[i]);
      if !ok {
        SomeUndecided(w, starts[i]);
        return Refused;
      }
    }
    assert starts[..|starts|] == starts;
    AllWalked(w, starts, walk.finished, walk.seen);
    outcome := Rows(walk.order);
  }

  ghost predicate AllDecided(w: Workspace) {
    forall a <- w.recipes.Keys :: Decided(w, a)
  }

  ghost predicate ListsAll(w: Workspace, rows: seq<Row>) {
    forall r :: r in RefsIn(rows) <==> r in w.recipes
  }

  lemma AllDecidedIff(w: Workspace)
    requires Listed(w)
    ensures AllDecided(w) <==> !exists a, dep :: Needs(w, a, dep) && Unclear(dep, w.refs)
  {
    hide Unclear, Decided;
    forall a | a in w.recipes ensures Decided(w, a) <==> forall dep :: Needs(w, a, dep) ==> !Unclear(dep, w.refs) {
      DecidedIff(w, a);
    }
  }

  lemma SomeUndecided(w: Workspace, ref: string)
    requires ReachesUndecided(w, ref)
    ensures !AllDecided(w)
  {
  }

  lemma AllWalked(w: Workspace, starts: seq<string>, finished: seq<string>, seen: set<string>)
    requires Walked(EdgesOf(w), finished, seen, {}) && SetOf(starts) <= seen
    requires forall r :: r in starts <==> r in w.recipes
    requires forall r <- seen :: r in w.recipes && Decided(w, r)
    requires (forall r <- finished :: r in w.recipes) && forall r <- Only(finished, w.recipes.Keys) :: r in w.recipes
    ensures AllDecided(w)
    ensures ListsInOrder(w, RowsOf(w, Only(finished, w.recipes.Keys)))
    ensures ListsAll(w, RowsOf(w, Only(finished, w.recipes.Keys)))
  {
    SetOfIs(starts);
    OnlyMembers(finished, w.recipes.Keys);
    RefsInRows(w, Only(finished, w.recipes.Keys));
    RowsListInOrder(w, finished, w.recipes.Keys);
  }

  /** DEPENDENCIES FIRST: where the members have no cycle, every row comes after all the rows it reaches. */
  lemma DependenciesFirst(w: Workspace, rows: seq<Row>, i: nat, b: string)
    requires ListsInOrder(w, rows) && Acyclic(EdgesOf(w)) && i < |rows| && b != rows[i].ref
    requires Reach(EdgesOf(w), rows[i].ref, b)
    ensures Before(RefsIn(rows), b, i)
  {
    AcyclicOrder(EdgesOf(w), RefsIn(rows), i, b);
  }

  /** The names of a row's edges are those of members it requires, and in an acyclic graph each names an earlier row: a
      walk of the rows can skip what depends on a failed step. */
  lemma EdgesNameEarlierRows(w: Workspace, rows: seq<Row>, i: nat, name: string)
    requires Listed(w) && ListsInOrder(w, rows) && Acyclic(EdgesOf(w)) && i < |rows|
    ensures name in rows[i].names <==> exists b :: Edge(EdgesOf(w), rows[i].ref, b) && NameOf(b) == name
    ensures name in rows[i].names ==> exists j :: 0 <= j < i && NameOf(rows[j].ref) == name
  {
    var a := rows[i].ref;
    assert rows[i] in rows;
    if name in rows[i].names {
      var b :| b in EdgesOf(w)[a] && NameOf(b) == name;
      assert Edge(EdgesOf(w), a, b) && RefsIn(rows)[i] == a;
      assert Before(RefsIn(rows), b, i);
    }
  }
}
