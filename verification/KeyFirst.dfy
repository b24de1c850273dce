/** The key before a step and the key after it (artefact_store.py, `label_tests`, `key_first_members`,
    `key_first_document`, `_step_inputs`, gate G2): exactly when the two documents are one. */
module KeyFirst {
  import opened Options
  import opened ArtefactStore

  datatype Binary = Skip | Other(state: string)

  /** A graph node, its aliases as conan gives them. */
  datatype Node = Node(name: string, context: string, binary: Binary, test: bool,
                       recipe: string, packageId: string, prev: string)

  function LabelOf(node: Node): string {
    node.name + "/" + node.context
  }

  function NodeConfiguration(node: Node): string {
    node.recipe + ":" + node.packageId
  }

  function Alias(node: Node): string {
    NodeConfiguration(node) + "#" + node.prev
  }

  /** A third-party record's output: its content and, when it keeps one, its packaged digest. */
  datatype Judgement = Judgement(content: Digest, packaged: Option<Digest>)

  /** What a step reads beside its graph: which names are first-party, each recipe's export digest, each binary's
      folder digest, the contents recorded by alias, and the third-party judgements by configuration. */
  datatype World = World(owned: string -> bool, exported: string -> Digest, folder: string -> Digest,
                         held: map<string, set<Digest>>, judged: map<string, seq<Judgement>>)

  datatype Inputs = Inputs(sources: map<string, Source>, upstream: map<string, Upstream>,
                           thirdParty: map<string, ThirdParty>)

  const NOTHING := Inputs(map[], map[], map[])

  /* ---------------------------------------------------------------- the test flag per label */

  predicate Bears(node: Node, name: string) {
    node.binary != Skip && LabelOf(node) == name
  }

  /** A label is a test requirement only when every node bearing it is. */
  ghost predicate TestOnly(nodes: seq<Node>, name: string) {
    forall node <- nodes :: Bears(node, name) ==> node.test
  }

  /** Some label's nodes name two references. */
  ghost predicate Doubled(nodes: seq<Node>) {
    exists a, b :: a in nodes && b in nodes && a.binary != Skip && b.binary != Skip
                   && LabelOf(a) == LabelOf(b) && a.recipe != b.recipe
  }

  ghost predicate Flagged(tests: map<string, bool>, nodes: seq<Node>) {
    && (forall name: string :: name in tests <==> exists node <- nodes :: Bears(node, name))
    && (forall name <- tests :: tests[name] <==> TestOnly(nodes, name))
  }

  /** For each label, the references its nodes name. */
  ghost predicate Referenced(references: map<string, set<string>>, nodes: seq<Node>) {
    forall name <- references.Keys, recipe: string ::
      recipe in references[name] <==> exists node <- nodes :: Bears(node, name) && node.recipe == recipe
  }

  lemma ReferencedNext(had: map<string, set<string>>, now: map<string, set<string>>, nodes: seq<Node>, node: Node)
    requires Referenced(had, nodes) && node.binary != Skip
    requires LabelOf(node) !in had ==> forall n <- nodes :: !Bears(n, LabelOf(node))
    requires now == had[LabelOf(node) := (if LabelOf(node) in had then had[LabelOf(node)] else {}) + {node.recipe}]
    ensures Referenced(now, nodes + [node])
  {
    var more, bearer := nodes + [node], LabelOf(node);
    forall name, recipe: string | name in now.Keys
      ensures recipe in now[name] <==> exists n <- more :: Bears(n, name) && n.recipe == recipe
    {
      assert node in more && forall n <- nodes :: n in more;
      if name in had { assert recipe in had[name] <==> exists n <- nodes :: Bears(n, name) && n.recipe == recipe; }
      if name == bearer && recipe == node.recipe { assert Bears(node, name); }
    }
  }

  /** A skipped node bears no label. */
  lemma SkippedNext(flags: map<string, bool>, references: map<string, set<string>>, nodes: seq<Node>, node: Node)
    requires Flagged(flags, nodes) && Referenced(references, nodes) && node.binary == Skip
    ensures Flagged(flags, nodes + [node]) && Referenced(references, nodes + [node])
  {
    var more := nodes + [node];
    assert forall name: string :: !Bears(node, name);
    assert forall n <- nodes :: n in more;
    assert forall name: string :: TestOnly(more, name) <==> TestOnly(nodes, name);
  }

  /** A label is doubled exactly when two references are kept for it. */
  lemma DoubledIff(references: map<string, set<string>>, flags: map<string, bool>, nodes: seq<Node>)
    requires Referenced(references, nodes) && Flagged(flags, nodes) && references.Keys == flags.Keys
    ensures Doubled(nodes) <==>
            exists name :: name in references && exists a <- references[name], b <- references[name] :: a != b
  {
    if name: string :| name in references && exists a <- references[name], b <- references[name] :: a != b {
      var a, b :| a in references[name] && b in references[name] && a != b;
      var n :| n in nodes && Bears(n, name) && n.recipe == a;
      var m :| m in nodes && Bears(m, name) && m.recipe == b;
      assert Doubled(nodes);
    }
    if Doubled(nodes) {
      var a, b :| a in nodes && b in nodes && a.binary != Skip && b.binary != Skip
                  && LabelOf(a) == LabelOf(b) && a.recipe != b.recipe;
      assert Bears(a, LabelOf(a)) && Bears(b, LabelOf(a));
      assert a.recipe in references[LabelOf(a)] && b.recipe in references[LabelOf(a)];
    }
  }

  /** `label_tests`; None when a label carries two references. */
  method LabelTests(nodes: seq<Node>) returns (tests: Option<map<string, bool>>)
    ensures tests.None? <==> Doubled(nodes)
    ensures tests.Some? ==> Flagged(tests.value, nodes)
  {
    hide Flagged, Referenced, Doubled;
    var flags: map<string, bool>, references: map<string, set<string>> := map[], map[];
    NothingFlagged();
    assert nodes[..0] == [];
    for i := 0 to |nodes|
      invariant Flagged(flags, nodes[..i]) && Referenced(references, nodes[..i])
      invariant references.Keys == flags.Keys
    {
      var node := nodes[i];
      assert nodes[..i + 1] == nodes[..i] + [node];
      if node.binary == Skip {
        SkippedNext(flags, references, nodes[..i], node);
        continue;
      }
      var name := LabelOf(node);
      ghost var was, had := flags, references;
      flags := flags[name := (if name in flags then flags[name] else true) && node.test];
      references := references[name := (if name in references then references[name] else {}) + {node.recipe}];
      FlaggedNext(was, flags, nodes[..i], node);
      if name !in had { UnflaggedIsUnborne(was, nodes[..i], name); }
      ReferencedNext(had, references, nodes[..i], node);
    }
    assert nodes[..|nodes|] == nodes;
    DoubledIff(references, flags, nodes);
    var doubled := set name | name in references && exists a <- references[name], b <- references[name] :: a != b;
    assert doubled == {} <==> forall name <- references :: name !in doubled;
    tests := if doubled == {} then Some(flags) else None;
  }

  lemma UnflaggedIsUnborne(flags: map<string, bool>, nodes: seq<Node>, name: string)
    requires Flagged(flags, nodes) && name !in flags
    ensures forall n <- nodes :: !Bears(n, name)
  {
  }

  lemma NothingFlagged()
    ensures Flagged(map[], []) && Referenced(map[], [])
  {
  }

  lemma FlaggedNext(was: map<string, bool>, now: map<string, bool>, nodes: seq<Node>, node: Node)
    requires Flagged(was, nodes) && node.binary != Skip
    requires now == was[LabelOf(node) := (if LabelOf(node) in was then was[LabelOf(node)] else true) && node.test]
    ensures Flagged(now, nodes + [node])
  {
    var more := nodes + [node];
    forall name: string ensures name in now <==> exists n <- more :: Bears(n, name) {
      if name == LabelOf(node) { assert node in more && Bears(node, name); }
      else if n: Node :| n in more && Bears(n, name) { assert n in nodes; }
    }
    forall name | name in now ensures now[name] <==> TestOnly(more, name) {
      assert node in more;
      if name in was { assert was[name] <==> TestOnly(nodes, name); }
      else { assert TestOnly(nodes, name); }
    }
  }

  /* ---------------------------------------------------------------- the two documents */

  /** `held_content`: the recorded content a folder's digest stands for, among one configuration's records. */
  function HeldContent(outputs: seq<Judgement>, digest: Digest): Option<Digest> {
    if outputs == [] then None
    else if digest == outputs[0].content || outputs[0].packaged == Some(digest) then Some(outputs[0].content)
    else HeldContent(outputs[1..], digest)
  }

  function JudgedAt(world: World, node: Node): seq<Judgement> {
    if NodeConfiguration(node) in world.judged then world.judged[NodeConfiguration(node)] else []
  }

  /** The content the key before the step gives a third-party node: the recorded one its folder stands for, or
      the folder's own. */
  function ContentBefore(world: World, node: Node): Digest {
    match HeldContent(JudgedAt(world, node), world.folder(Alias(node)))
    case Some(content) => content
    case None => world.folder(Alias(node))
  }

  predicate Recorded(world: World, node: Node) {
    Alias(node) in world.held && exists content <- world.held[Alias(node)] :: world.held[Alias(node)] == {content}
  }

  function RecordedContent(world: World, node: Node): Digest
    requires Recorded(world, node)
  {
    var content :| content in world.held[Alias(node)] && world.held[Alias(node)] == {content};
    content
  }

  function Flag(tests: map<string, bool>, node: Node): bool {
    LabelOf(node) in tests && tests[LabelOf(node)]
  }

  /** One turn of the loop of `key_first_members`. */
  function BeforeNode(world: World, tests: map<string, bool>, so: Inputs, node: Node): Inputs
    requires node.binary != Skip && world.owned(node.name) ==> Recorded(world, node)
  {
    var name := LabelOf(node);
    if node.binary == Skip then so
    else if !world.owned(node.name) then
      so.(thirdParty := so.thirdParty[name :=
            ThirdParty(node.recipe, node.packageId, ContentBefore(world, node), Some(Flag(tests, node)))])
    else
      so.(sources := so.sources[name := Export(world.exported(node.recipe))],
          upstream := so.upstream[name := Upstream(RecordedContent(world, node), Flag(tests, node))])
  }

  function BeforeInputs(world: World, tests: map<string, bool>, nodes: seq<Node>): Inputs
    requires forall node <- nodes :: node.binary != Skip && world.owned(node.name) ==> Recorded(world, node)
  {
    if nodes == [] then NOTHING
    else BeforeNode(world, tests, BeforeInputs(world, tests, nodes[..|nodes| - 1]), nodes[|nodes| - 1])
  }

  predicate IsTarget(package: string, created: string, node: Node) {
    node.name == package && node.context == created
  }

  /** One turn of the loop of `_step_inputs`. */
  function AfterNode(world: World, tests: map<string, bool>, package: string, created: string,
                     so: Inputs, node: Node): Inputs
  {
    var name := LabelOf(node);
    if node.binary == Skip then so
    else if world.owned(node.name) then
      var sources := so.sources[name := Export(world.exported(node.recipe))];
      if IsTarget(package, created, node) then so.(sources := sources)
      else so.(sources := sources,
               upstream := so.upstream[name := Upstream(world.folder(Alias(node)), Flag(tests, node))])
    else
      so.(thirdParty := so.thirdParty[name :=
            ThirdParty(node.recipe, node.packageId, world.folder(Alias(node)), Some(Flag(tests, node)))])
  }

  function AfterInputs(world: World, tests: map<string, bool>, package: string, created: string,
                       nodes: seq<Node>): Inputs
  {
    if nodes == [] then NOTHING
    else AfterNode(world, tests, package, created,
                   AfterInputs(world, tests, package, created, nodes[..|nodes| - 1]), nodes[|nodes| - 1])
  }

  datatype Members = RefusedLabels | RefusedUpstreams(unrecorded: seq<string>) | Found(inputs: Inputs)

  /** `key_first_members`. */
  method KeyFirstMembers(world: World, nodes: seq<Node>) returns (members: Members)
    ensures members.RefusedLabels? <==> Doubled(nodes)
    ensures members.RefusedUpstreams? ==>
              exists node <- nodes :: node.binary != Skip && world.owned(node.name) && !Recorded(world, node)
    ensures members.Found? ==>
              && (forall node <- nodes :: node.binary != Skip && world.owned(node.name) ==> Recorded(world, node))
              && exists tests :: Flagged(tests, nodes) && members.inputs == BeforeInputs(world, tests, nodes)
  {
    var tests := LabelTests(nodes);
    if tests.None? { return RefusedLabels; }
    var so, unrecorded := NOTHING, [];
    assert nodes[..0] == [];
    for i := 0 to |nodes|
      invariant unrecorded == [] ==>
        && (forall node <- nodes[..i] :: node.binary != Skip && world.owned(node.name) ==> Recorded(world, node))
        && so == BeforeInputs(world, tests.value, nodes[..i])
      invariant unrecorded != [] ==>
        exists node <- nodes :: node.binary != Skip && world.owned(node.name) && !Recorded(world, node)
    {
      var node := nodes[i];
      assert nodes[..i + 1][..i] == nodes[..i] && nodes[..i + 1] == nodes[..i] + [node];
      if node.binary != Skip && world.owned(node.name) && !Recorded(world, node) {
        unrecorded := unrecorded + [LabelOf(node)];
      } else {
        so := BeforeNode(world, tests.value, so, node);
      }
    }
    assert nodes[..|nodes|] == nodes;
    if unrecorded != [] { return RefusedUpstreams(unrecorded); }
    members := Found(so);
  }

  lemma NothingAfter(world: World, tests: map<string, bool>, package: string, created: string, nodes: seq<Node>)
    ensures AfterInputs(world, tests, package, created, nodes[..0]) == NOTHING
  {
  }

  lemma AfterNext(world: World, tests: map<string, bool>, package: string, created: string, nodes: seq<Node>, i: nat)
    requires i < |nodes|
    ensures AfterInputs(world, tests, package, created, nodes[..i + 1])
            == AfterNode(world, tests, package, created, AfterInputs(world, tests, package, created, nodes[..i]), nodes[i])
  {
    assert nodes[..i + 1][..i] == nodes[..i] && nodes[..i + 1][i] == nodes[i];
  }

  datatype Stepped = LabelsRefused | NoTarget | Read(inputs: Inputs, target: Option<Node>)

  /** The node a create made. */
  predicate Creates(world: World, package: string, nodes: seq<Node>, node: Node) {
    node.binary != Skip && world.owned(node.name) && IsTarget(package, Created(package, nodes), node)
  }

  /** `_step_inputs`; `withRoot` is the caller's demand that the graph hold the target. */
  method StepInputs(world: World, package: string, nodes: seq<Node>, withRoot: bool) returns (step: Stepped)
    ensures step.LabelsRefused? <==> Doubled(nodes)
    ensures step.NoTarget? <==>
              !Doubled(nodes) && withRoot && forall node <- nodes :: !Creates(world, package, nodes, node)
    ensures step.Read? ==>
              exists tests :: Flagged(tests, nodes)
                              && step.inputs == AfterInputs(world, tests, package, Created(package, nodes), nodes)
    ensures step.Read? && step.target.None? ==> forall node <- nodes :: !Creates(world, package, nodes, node)
    ensures step.Read? && step.target.Some? ==>
              step.target.value in nodes && Creates(world, package, nodes, step.target.value)
              && step.target.value.name == package
              && step.target.value.context
                 == if exists node <- nodes :: node.name == package && node.context == "host" then "host" else "build"
  {
    hide Flagged, Doubled, AfterInputs, AfterNode, Created;
    var target: Option<Node> := None;
    var tests := LabelTests(nodes);
    if tests.None? { return LabelsRefused; }
    var created := Created(package, nodes);
    var so := NOTHING;
    NothingAfter(world, tests.value, package, created, nodes);
    for i := 0 to |nodes|
      invariant so == AfterInputs(world, tests.value, package, created, nodes[..i])
      invariant target.None? ==> forall j :: 0 <= j < i ==> !Creates(world, package, nodes, nodes[j])
      invariant target.Some? ==> target.value in nodes && Creates(world, package, nodes, target.value)
    {
      var node := nodes[i];
      AfterNext(world, tests.value, package, created, nodes, i);
      so := AfterNode(world, tests.value, package, created, so, node);
      if Creates(world, package, nodes, node) { target := Some(node); }
    }
    assert nodes[..|nodes|] == nodes;
    CreatedIs(package, nodes);
    if withRoot && target.None? { return NoTarget; }
    step := Read(so, target);
  }

  lemma CreatedIs(package: string, nodes: seq<Node>)
    ensures Created(package, nodes)
            == if exists node <- nodes :: node.name == package && node.context == "host" then "host" else "build"
  {
  }

  /** The context the create's target is looked for in. */
  function Created(package: string, nodes: seq<Node>): string {
    if exists node <- nodes :: node.name == package && node.context == "host" then "host" else "build"
  }

  /* ---------------------------------------------------------------- when the two are one */

  /** The step's content for a node is the one its key named before. */
  predicate ContentsAgree(before: World, after: World, node: Node)
    requires before.owned(node.name) ==> Recorded(before, node)
  {
    after.folder(Alias(node)) == if before.owned(node.name) then RecordedContent(before, node) else ContentBefore(before, node)
  }

  /** A later node that would overwrite this one's member. */
  predicate Overwrites(owned: string -> bool, later: Node, node: Node) {
    Bears(later, LabelOf(node)) && owned(later.name) == owned(node.name)
  }

  /** The node a member's content is read from: the last one bearing its label. */
  ghost predicate Last(owned: string -> bool, nodes: seq<Node>, i: int) {
    && 0 <= i < |nodes| && nodes[i].binary != Skip
    && forall j :: i < j < |nodes| ==> !Overwrites(owned, nodes[j], nodes[i])
  }

  /** Both loops over a graph with no target in it, the contents they read given by `content`. */
  function Gather(world: World, tests: map<string, bool>, content: Node -> Digest, nodes: seq<Node>): Inputs {
    if nodes == [] then NOTHING
    else
      var so, node := Gather(world, tests, content, nodes[..|nodes| - 1]), nodes[|nodes| - 1];
      var name := LabelOf(node);
      if node.binary == Skip then so
      else if world.owned(node.name) then
        so.(sources := so.sources[name := Export(world.exported(node.recipe))],
            upstream := so.upstream[name := Upstream(content(node), Flag(tests, node))])
      else
        so.(thirdParty := so.thirdParty[name :=
              ThirdParty(node.recipe, node.packageId, content(node), Some(Flag(tests, node)))])
  }

  function BeforeContent(world: World): Node -> Digest {
    (node: Node) =>
      if !world.owned(node.name) then ContentBefore(world, node)
      else if Recorded(world, node) then RecordedContent(world, node)
      else Sha256([])
  }

  function AfterContent(world: World): Node -> Digest {
    (node: Node) => world.folder(Alias(node))
  }

  lemma {:induction false} BeforeIsGathered(world: World, tests: map<string, bool>, nodes: seq<Node>)
    requires forall node <- nodes :: node.binary != Skip && world.owned(node.name) ==> Recorded(world, node)
    ensures BeforeInputs(world, tests, nodes) == Gather(world, tests, BeforeContent(world), nodes)
  {
    if nodes != [] { BeforeIsGathered(world, tests, nodes[..|nodes| - 1]); }
  }

  lemma {:induction false} AfterIsGathered(world: World, tests: map<string, bool>, package: string, created: string,
                                           nodes: seq<Node>)
    requires forall node <- nodes :: node.binary != Skip ==> !IsTarget(package, created, node)
    ensures AfterInputs(world, tests, package, created, nodes) == Gather(world, tests, AfterContent(world), nodes)
  {
    if nodes != [] { AfterIsGathered(world, tests, package, created, nodes[..|nodes| - 1]); }
  }

  /** Where a label's member comes from. */
  ghost predicate MemberOf(owned: string -> bool, nodes: seq<Node>, mine: bool, name: string) {
    exists i :: Last(owned, nodes, i) && owned(nodes[i].name) == mine && LabelOf(nodes[i]) == name
  }

  /** What the loops' result says, member by member. */
  ghost predicate Holding(world: World, tests: map<string, bool>, content: Node -> Digest, nodes: seq<Node>, so: Inputs) {
    && (forall name: string :: name in so.upstream <==> MemberOf(world.owned, nodes, true, name))
    && (forall name: string :: name in so.thirdParty <==> MemberOf(world.owned, nodes, false, name))
    && so.sources.Keys == so.upstream.Keys
    && forall i :: Last(world.owned, nodes, i) ==> HoldingAt(world, tests, content, nodes[i], so)
  }

  ghost predicate HoldingAt(world: World, tests: map<string, bool>, content: Node -> Digest, node: Node, so: Inputs) {
    var name := LabelOf(node);
    if world.owned(node.name) then
      name in so.upstream && name in so.sources
      && so.upstream[name] == Upstream(content(node), Flag(tests, node))
      && so.sources[name] == Export(world.exported(node.recipe))
    else
      name in so.thirdParty
      && so.thirdParty[name] == ThirdParty(node.recipe, node.packageId, content(node), Some(Flag(tests, node)))
  }

  lemma LastNext(owned: string -> bool, nodes: seq<Node>, node: Node, i: int)
    ensures Last(owned, nodes + [node], i) <==>
            (i == |nodes| && node.binary != Skip) || (Last(owned, nodes, i) && !Overwrites(owned, node, nodes[i]))
  {
    var more := nodes + [node];
    if 0 <= i < |nodes| {
      assert more[i] == nodes[i] && more[|nodes|] == node;
      assert forall j :: i < j < |nodes| ==> more[j] == nodes[j];
    }
  }

  lemma MemberNext(owned: string -> bool, nodes: seq<Node>, node: Node, mine: bool, name: string)
    ensures MemberOf(owned, nodes + [node], mine, name) <==>
            MemberOf(owned, nodes, mine, name) || (Bears(node, name) && owned(node.name) == mine)
  {
    var more := nodes + [node];
    if Bears(node, name) && owned(node.name) == mine {
      LastNext(owned, nodes, node, |nodes|);
      assert more[|nodes|] == node;
    } else {
      if i: int :| Last(owned, nodes, i) && owned(nodes[i].name) == mine && LabelOf(nodes[i]) == name {
        LastNext(owned, nodes, node, i);
        assert more[i] == nodes[i];
      }
      if i: int :| Last(owned, more, i) && owned(more[i].name) == mine && LabelOf(more[i]) == name {
        LastNext(owned, nodes, node, i);
        if i < |nodes| { assert more[i] == nodes[i]; }
      }
    }
  }

  lemma {:induction false} GatherKeys(world: World, tests: map<string, bool>, content: Node -> Digest, nodes: seq<Node>,
                                     name: string)
    ensures var so := Gather(world, tests, content, nodes);
            && (name in so.upstream <==> MemberOf(world.owned, nodes, true, name))
            && (name in so.thirdParty <==> MemberOf(world.owned, nodes, false, name))
            && (name in so.sources <==> name in so.upstream)
  {
    if nodes != [] {
      var front, node := nodes[..|nodes| - 1], nodes[|nodes| - 1];
      assert nodes == front + [node];
      GatherKeys(world, tests, content, front, name);
      MemberNext(world.owned, front, node, true, name);
      MemberNext(world.owned, front, node, false, name);
    }
  }

  lemma {:induction false} GatherValues(world: World, tests: map<string, bool>, content: Node -> Digest, nodes: seq<Node>,
                                       i: int)
    requires Last(world.owned, nodes, i)
    ensures HoldingAt(world, tests, content, nodes[i], Gather(world, tests, content, nodes))
  {
    var front, node := nodes[..|nodes| - 1], nodes[|nodes| - 1];
    assert nodes == front + [node];
    LastNext(world.owned, front, node, i);
    if i < |front| {
      GatherValues(world, tests, content, front, i);
      assert nodes[i] == front[i];
    }
  }

  lemma GatherHolds(world: World, tests: map<string, bool>, content: Node -> Digest, nodes: seq<Node>)
    ensures Holding(world, tests, content, nodes, Gather(world, tests, content, nodes))
  {
    var so := Gather(world, tests, content, nodes);
    forall name: string
      ensures name in so.upstream <==> MemberOf(world.owned, nodes, true, name)
      ensures name in so.thirdParty <==> MemberOf(world.owned, nodes, false, name)
      ensures name in so.sources <==> name in so.upstream
    {
      GatherKeys(world, tests, content, nodes, name);
    }
    forall i | Last(world.owned, nodes, i) ensures HoldingAt(world, tests, content, nodes[i], so) {
      GatherValues(world, tests, content, nodes, i);
    }
  }

  /** Both results hold the same for a label once the contents of its last node are the same. */
  lemma SameMember(world: World, tests: map<string, bool>, c: Node -> Digest, d: Node -> Digest, nodes: seq<Node>,
                   a: Inputs, b: Inputs, mine: bool, name: string)
    requires Holding(world, tests, c, nodes, a) && Holding(world, tests, d, nodes, b)
    requires forall i :: Last(world.owned, nodes, i) ==> c(nodes[i]) == d(nodes[i])
    requires MemberOf(world.owned, nodes, mine, name)
    ensures if mine then name in a.upstream && name in b.upstream && a.upstream[name] == b.upstream[name]
                         && name in a.sources && name in b.sources && a.sources[name] == b.sources[name]
            else name in a.thirdParty && name in b.thirdParty && a.thirdParty[name] == b.thirdParty[name]
  {
    var i :| Last(world.owned, nodes, i) && world.owned(nodes[i].name) == mine && LabelOf(nodes[i]) == name;
    assert HoldingAt(world, tests, c, nodes[i], a) && HoldingAt(world, tests, d, nodes[i], b);
  }

  /** What one result holds, the other holds. */
  lemma HoldingCarries(world: World, tests: map<string, bool>, c: Node -> Digest, d: Node -> Digest, nodes: seq<Node>,
                       a: Inputs, b: Inputs)
    requires Holding(world, tests, c, nodes, a) && Holding(world, tests, d, nodes, b)
    requires forall i :: Last(world.owned, nodes, i) ==> c(nodes[i]) == d(nodes[i])
    ensures forall name <- a.upstream.Keys :: name in b.upstream && a.upstream[name] == b.upstream[name]
    ensures forall name <- a.upstream.Keys :: name in a.sources && name in b.sources && a.sources[name] == b.sources[name]
    ensures forall name <- a.thirdParty.Keys :: name in b.thirdParty && a.thirdParty[name] == b.thirdParty[name]
    ensures a.sources.Keys == a.upstream.Keys
  {
    forall name | name in a.upstream.Keys
      ensures name in b.upstream && a.upstream[name] == b.upstream[name]
      ensures name in a.sources && name in b.sources && a.sources[name] == b.sources[name]
    {
      SameMember(world, tests, c, d, nodes, a, b, true, name);
    }
    forall name | name in a.thirdParty.Keys ensures name in b.thirdParty && a.thirdParty[name] == b.thirdParty[name] {
      SameMember(world, tests, c, d, nodes, a, b, false, name);
    }
  }

  lemma HoldingDetermines(world: World, tests: map<string, bool>, c: Node -> Digest, d: Node -> Digest,
                          nodes: seq<Node>, a: Inputs, b: Inputs)
    requires Holding(world, tests, c, nodes, a) && Holding(world, tests, d, nodes, b)
    requires forall i :: Last(world.owned, nodes, i) ==> c(nodes[i]) == d(nodes[i])
    ensures a == b
  {
    hide Holding, Last;
    HoldingCarries(world, tests, c, d, nodes, a, b);
    HoldingCarries(world, tests, d, c, nodes, b, a);
    assert a.upstream == b.upstream && a.thirdParty == b.thirdParty && a.sources == b.sources;
  }

  lemma DeterminedByHolding(world: World, tests: map<string, bool>, c: Node -> Digest, d: Node -> Digest,
                            nodes: seq<Node>, so: Inputs, i: int)
    requires Holding(world, tests, c, nodes, so) && Holding(world, tests, d, nodes, so) && Last(world.owned, nodes, i)
    ensures c(nodes[i]) == d(nodes[i])
  {
    assert HoldingAt(world, tests, c, nodes[i], so) && HoldingAt(world, tests, d, nodes[i], so);
  }

  /* ---------------------------------------------------------------- the target in the create's graph */

  /** The create's graph: the resolved one with the target among it. */
  function CreateGraph(resolved: seq<Node>, k: nat, target: Node): seq<Node>
    requires k <= |resolved|
  {
    resolved[..k] + [target] + resolved[k..]
  }

  ghost predicate FlagsAgree(tests: map<string, bool>, tests': map<string, bool>, nodes: seq<Node>) {
    forall node <- nodes :: node.binary != Skip ==> Flag(tests, node) == Flag(tests', node)
  }

  lemma TargetChangesNoFlag(resolved: seq<Node>, k: nat, target: Node, tests: map<string, bool>, tests': map<string, bool>)
    requires k <= |resolved| && Flagged(tests, resolved) && Flagged(tests', CreateGraph(resolved, k, target))
    requires forall node <- resolved :: !Bears(node, LabelOf(target))
    ensures FlagsAgree(tests, tests', resolved)
  {
    var graph := CreateGraph(resolved, k, target);
    assert forall node :: node in graph <==> node in resolved || node == target by {
      assert resolved == resolved[..k] + resolved[k..];
    }
    forall node | node in resolved && node.binary != Skip ensures Flag(tests, node) == Flag(tests', node) {
      var name := LabelOf(node);
      assert Bears(node, name) && node in graph;
      assert name in tests && name in tests';
      assert TestOnly(resolved, name) <==> TestOnly(graph, name);
    }
  }

  lemma {:induction false} GatherSameFlags(world: World, tests: map<string, bool>, tests': map<string, bool>,
                                           content: Node -> Digest, nodes: seq<Node>)
    requires FlagsAgree(tests, tests', nodes)
    ensures Gather(world, tests, content, nodes) == Gather(world, tests', content, nodes)
  {
    if nodes != [] {
      assert nodes[|nodes| - 1] in nodes;
      assert forall node <- nodes[..|nodes| - 1] :: node in nodes;
      GatherSameFlags(world, tests, tests', content, nodes[..|nodes| - 1]);
    }
  }

  function WithSource(so: Inputs, name: string, source: Source): Inputs {
    so.(sources := so.sources[name := source])
  }

  /** The target adds its own source to the step's inputs and nothing else, wherever it stands in the graph. */
  lemma {:induction false} TargetAddsItsSource(world: World, tests: map<string, bool>, package: string, created: string,
                                               front: seq<Node>, target: Node, back: seq<Node>)
    requires target.binary != Skip && world.owned(target.name) && IsTarget(package, created, target)
    requires forall node <- back :: !Bears(node, LabelOf(target))
    requires forall node <- back :: node.binary != Skip ==> !IsTarget(package, created, node)
    ensures AfterInputs(world, tests, package, created, front + [target] + back)
            == WithSource(AfterInputs(world, tests, package, created, front + back), LabelOf(target),
                          Export(world.exported(target.recipe)))
    decreases |back|
  {
    var all := front + [target] + back;
    if back == [] {
      assert all == front + [target] && all[..|all| - 1] == front && front + back == front;
    } else {
      var last := back[|back| - 1];
      TargetAddsItsSource(world, tests, package, created, front, target, back[..|back| - 1]);
      assert all[..|all| - 1] == front + [target] + back[..|back| - 1];
      assert (front + back)[..|front + back| - 1] == front + back[..|back| - 1];
      assert all[|all| - 1] == last == (front + back)[|front + back| - 1];
      assert !Bears(last, LabelOf(target));
      SourceCommutes(world, tests, package, created, AfterInputs(world, tests, package, created, front + back[..|back| - 1]),
                     last, LabelOf(target), Export(world.exported(target.recipe)));
    }
  }

  lemma SourceCommutes(world: World, tests: map<string, bool>, package: string, created: string, so: Inputs, node: Node,
                       name: string, source: Source)
    requires !Bears(node, name)
    ensures AfterNode(world, tests, package, created, WithSource(so, name, source), node)
            == WithSource(AfterNode(world, tests, package, created, so, node), name, source)
  {
    if node.binary != Skip && world.owned(node.name) {
      var other := LabelOf(node);
      var mine := Export(world.exported(node.recipe));
      assert so.sources[name := source][other := mine] == so.sources[other := mine][name := source];
    }
  }

  /** The create's graph is the resolved one plus its target, whose label is its own; each first-party node has one
      recorded content before the step, and the flags are those of the two graphs. */
  ghost predicate Resolves(before: World, package: string, resolved: seq<Node>, k: nat, target: Node,
                           tests: map<string, bool>, tests': map<string, bool>) {
    && k <= |resolved| && target.binary != Skip && before.owned(target.name) && target.name == package
    && target.context == Created(package, CreateGraph(resolved, k, target))
    && (forall node <- resolved :: !Bears(node, LabelOf(target)))
    && (forall node <- resolved :: node.binary != Skip && before.owned(node.name) ==> Recorded(before, node))
    && Flagged(tests, resolved) && Flagged(tests', CreateGraph(resolved, k, target))
  }

  /** The document keyed before the step is the one keyed after it. */
  ghost predicate SameDocument(before: World, after: World, package: string, resolved: seq<Node>, k: nat, target: Node,
                               tests: map<string, bool>, tests': map<string, bool>)
    requires Resolves(before, package, resolved, k, target, tests, tests')
  {
    WithSource(BeforeInputs(before, tests, resolved), LabelOf(target), Export(before.exported(target.recipe)))
    == AfterInputs(after, tests', package, Created(package, CreateGraph(resolved, k, target)),
                   CreateGraph(resolved, k, target))
  }

  /** The two documents, label by label: they are equal exactly when, for the last node of every label, the folder after
      the step is at the content the key before it named. */
  lemma KeyBeforeIsKeyAfter(before: World, after: World, package: string, resolved: seq<Node>, k: nat, target: Node,
                            tests: map<string, bool>, tests': map<string, bool>)
    requires after.owned == before.owned && after.exported == before.exported
    requires Resolves(before, package, resolved, k, target, tests, tests')
    ensures SameDocument(before, after, package, resolved, k, target, tests, tests')
            <==> forall i :: Last(before.owned, resolved, i) ==> ContentsAgree(before, after, resolved[i])
  {
    AfterWithoutTarget(before, after, package, resolved, k, target, tests, tests');
    BeforeIsGathered(before, tests, resolved);
    var a, b := Gather(before, tests, BeforeContent(before), resolved), Gather(before, tests, AfterContent(after), resolved);
    FreshSource(before, tests, BeforeContent(before), resolved, target);
    FreshSource(before, tests, AfterContent(after), resolved, target);
    FreshSourceHidesNothing(a, b, LabelOf(target), Export(before.exported(target.recipe)));
    GatheredAlike(before, after, tests, resolved);
  }

  /** The document after the step, the target's source set apart. */
  lemma AfterWithoutTarget(before: World, after: World, package: string, resolved: seq<Node>, k: nat, target: Node,
                           tests: map<string, bool>, tests': map<string, bool>)
    requires after.owned == before.owned && after.exported == before.exported
    requires k <= |resolved| && target.binary != Skip && before.owned(target.name) && target.name == package
    requires target.context == Created(package, CreateGraph(resolved, k, target))
    requires forall node <- resolved :: !Bears(node, LabelOf(target))
    requires Flagged(tests, resolved) && Flagged(tests', CreateGraph(resolved, k, target))
    ensures AfterInputs(after, tests', package, target.context, CreateGraph(resolved, k, target))
            == WithSource(Gather(before, tests, AfterContent(after), resolved), LabelOf(target),
                          Export(before.exported(target.recipe)))
  {
    var created := target.context;
    forall node | node in resolved && node.binary != Skip ensures !IsTarget(package, created, node) {
      assert !Bears(node, LabelOf(target));
    }
    assert resolved == resolved[..k] + resolved[k..];
    forall node | node in resolved[k..] ensures node in resolved { }
    TargetAddsItsSource(after, tests', package, created, resolved[..k], target, resolved[k..]);
    AfterIsGathered(after, tests', package, created, resolved);
    TargetChangesNoFlag(resolved, k, target, tests, tests');
    GatherSameFlags(after, tests, tests', AfterContent(after), resolved);
    GatherSameWorld(before, after, tests, AfterContent(after), resolved);
  }

  lemma GatheredAlike(before: World, after: World, tests: map<string, bool>, resolved: seq<Node>)
    requires forall node <- resolved :: node.binary != Skip && before.owned(node.name) ==> Recorded(before, node)
    ensures Gather(before, tests, BeforeContent(before), resolved) == Gather(before, tests, AfterContent(after), resolved)
            <==> forall i :: Last(before.owned, resolved, i) ==> ContentsAgree(before, after, resolved[i])
  {
    hide Gather, Holding, ContentBefore;
    var c, d := BeforeContent(before), AfterContent(after);
    var a, b := Gather(before, tests, c, resolved), Gather(before, tests, d, resolved);
    GatherHolds(before, tests, c, resolved);
    GatherHolds(before, tests, d, resolved);
    forall i | Last(before.owned, resolved, i)
      ensures c(resolved[i]) == d(resolved[i]) <==> ContentsAgree(before, after, resolved[i])
    {
      assert resolved[i] in resolved;
    }
    if a == b {
      forall i | Last(before.owned, resolved, i) ensures c(resolved[i]) == d(resolved[i]) {
        DeterminedByHolding(before, tests, c, d, resolved, a, i);
      }
    } else if forall i :: Last(before.owned, resolved, i) ==> ContentsAgree(before, after, resolved[i]) {
      HoldingDetermines(before, tests, c, d, resolved, a, b);
    }
  }

  lemma {:induction false} GatherSameWorld(before: World, after: World, tests: map<string, bool>, content: Node -> Digest,
                                           nodes: seq<Node>)
    requires after.owned == before.owned && after.exported == before.exported
    ensures Gather(before, tests, content, nodes) == Gather(after, tests, content, nodes)
  {
    if nodes != [] { GatherSameWorld(before, after, tests, content, nodes[..|nodes| - 1]); }
  }

  /** The target's own label is nobody else's. */
  lemma FreshSource(world: World, tests: map<string, bool>, content: Node -> Digest, nodes: seq<Node>, target: Node)
    requires forall node <- nodes :: !Bears(node, LabelOf(target))
    ensures LabelOf(target) !in Gather(world, tests, content, nodes).sources
  {
    GatherKeys(world, tests, content, nodes, LabelOf(target));
    forall i | Last(world.owned, nodes, i) ensures LabelOf(nodes[i]) != LabelOf(target) {
      assert nodes[i] in nodes;
    }
  }

  lemma FreshSourceHidesNothing(a: Inputs, b: Inputs, name: string, source: Source)
    requires name !in a.sources && name !in b.sources
    ensures WithSource(a, name, source) == WithSource(b, name, source) <==> a == b
  {
    assert a.sources == a.sources[name := source] - {name};
    assert b.sources == b.sources[name := source] - {name};
  }

  /* ---------------------------------------------------------------- what a third-party folder stands for */

  predicate Stands(output: Judgement, digest: Digest) {
    digest == output.content || output.packaged == Some(digest)
  }

  /** The index at which `held_content` answers: the first record the digest stands for. */
  ghost predicate FirstStanding(outputs: seq<Judgement>, digest: Digest, i: int) {
    0 <= i < |outputs| && Stands(outputs[i], digest) && forall j :: 0 <= j < i ==> !Stands(outputs[j], digest)
  }

  /** `held_content` answers with the FIRST record the digest stands for, and None when there is none. */
  lemma {:induction false} HeldContentIsTheFirst(outputs: seq<Judgement>, digest: Digest)
    ensures match HeldContent(outputs, digest)
            case None => forall i :: 0 <= i < |outputs| ==> !Stands(outputs[i], digest)
            case Some(content) => exists i :: FirstStanding(outputs, digest, i) && outputs[i].content == content
  {
    if outputs == [] {
    } else if Stands(outputs[0], digest) {
      assert FirstStanding(outputs, digest, 0);
    } else {
      var rest := outputs[1..];
      HeldContentIsTheFirst(rest, digest);
      assert forall i :: 1 <= i < |outputs| ==> outputs[i] == rest[i - 1];
      if HeldContent(rest, digest).Some? {
        var i :| FirstStanding(rest, digest, i) && rest[i].content == HeldContent(rest, digest).value;
        assert FirstStanding(outputs, digest, i + 1) && outputs[i + 1].content == rest[i].content;
      }
    }
  }

  /** No digest stands for two contents of the configuration. */
  ghost predicate Unmixed(outputs: seq<Judgement>) {
    forall i, j, digest :: 0 <= i < |outputs| && 0 <= j < |outputs| && Stands(outputs[i], digest) && Stands(outputs[j], digest)
      ==> outputs[i].content == outputs[j].content
  }

  /** Every digest a record keeps stands for that record's content. */
  ghost predicate Faithful(outputs: seq<Judgement>) {
    forall i, digest :: 0 <= i < |outputs| && Stands(outputs[i], digest) ==>
      HeldContent(outputs, digest) == Some(outputs[i].content)
  }

  /** WHEN A FOLDER STANDS FOR ITS OWN RECORD: `held_content` gives every digest that a record keeps, as its content or
      its packaged digest, that record's content if and only if no digest stands for two contents. */
  lemma HeldContentIsFaithfulIff(outputs: seq<Judgement>)
    ensures Faithful(outputs) <==> Unmixed(outputs)
  {
    if Faithful(outputs) {
      forall i, j, digest | 0 <= i < |outputs| && 0 <= j < |outputs| && Stands(outputs[i], digest) && Stands(outputs[j], digest)
        ensures outputs[i].content == outputs[j].content
      {
        assert HeldContent(outputs, digest) == Some(outputs[i].content);
      }
    }
    if Unmixed(outputs) {
      forall i, digest | 0 <= i < |outputs| && Stands(outputs[i], digest)
        ensures HeldContent(outputs, digest) == Some(outputs[i].content)
      {
        HeldContentIsTheFirst(outputs, digest);
      }
    }
  }

  /** Where no digest stands for two contents, a third-party folder at a recorded content after the step, and at that
      content or its packaged digest before it, is keyed alike before and after. */
  lemma ThirdPartyAgrees(before: World, after: World, node: Node, i: nat)
    requires !before.owned(node.name) && Unmixed(JudgedAt(before, node)) && i < |JudgedAt(before, node)|
    requires after.folder(Alias(node)) == JudgedAt(before, node)[i].content
    requires Stands(JudgedAt(before, node)[i], before.folder(Alias(node)))
    ensures ContentsAgree(before, after, node)
  {
    var outputs, digest := JudgedAt(before, node), before.folder(Alias(node));
    HeldContentIsTheFirst(outputs, digest);
    var j :| FirstStanding(outputs, digest, j) && outputs[j].content == HeldContent(outputs, digest).value;
  }

  /* ---------------------------------------------------------------- the promise, over the records */

  /** After the step the folder is at the content of record `i`, which it stood for before the step. */
  ghost predicate StandsFor(before: World, after: World, node: Node, i: nat) {
    && i < |JudgedAt(before, node)| && Stands(JudgedAt(before, node)[i], before.folder(Alias(node)))
    && after.folder(Alias(node)) == JudgedAt(before, node)[i].content
  }

  /** The step used what was recorded: each first-party folder is at the one recorded content of its alias, and each
      third-party folder at a recorded content it, or its packaged digest, stood for. */
  ghost predicate Follows(before: World, after: World, nodes: seq<Node>) {
    && after.owned == before.owned && after.exported == before.exported
    && forall node <- nodes :: node.binary != Skip ==>
         if before.owned(node.name) then Recorded(before, node) && after.folder(Alias(node)) == RecordedContent(before, node)
         else exists i: nat :: StandsFor(before, after, node, i)
  }

  /** The digest stands for one content alone. */
  ghost predicate UnmixedAt(outputs: seq<Judgement>, digest: Digest) {
    forall i, j :: 0 <= i < |outputs| && 0 <= j < |outputs| && Stands(outputs[i], digest) && Stands(outputs[j], digest)
      ==> outputs[i].content == outputs[j].content
  }

  lemma FollowedAgrees(before: World, after: World, nodes: seq<Node>, node: Node)
    requires Follows(before, after, nodes) && node in nodes && node.binary != Skip
    requires before.owned(node.name) ==> Recorded(before, node)
    requires !before.owned(node.name) ==> UnmixedAt(JudgedAt(before, node), before.folder(Alias(node)))
    ensures ContentsAgree(before, after, node)
  {
    if !before.owned(node.name) {
      var i: nat :| StandsFor(before, after, node, i);
      var outputs, digest := JudgedAt(before, node), before.folder(Alias(node));
      HeldContentIsTheFirst(outputs, digest);
      var j :| FirstStanding(outputs, digest, j) && outputs[j].content == HeldContent(outputs, digest).value;
    }
  }

  /** KEY BEFORE IS KEY AFTER: where each first-party folder is at its recorded content, each third-party folder at a
      recorded content it or its packaged digest stood for, and no third-party configuration of the graph has a digest
      standing for two contents, the two documents are one, member for member and test flags included. */
  lemma RecordsGiveOneKey(before: World, after: World, package: string, resolved: seq<Node>, k: nat, target: Node,
                          tests: map<string, bool>, tests': map<string, bool>)
    requires Resolves(before, package, resolved, k, target, tests, tests') && Follows(before, after, resolved)
    requires forall node <- resolved :: node.binary != Skip && !before.owned(node.name) ==> Unmixed(JudgedAt(before, node))
    ensures SameDocument(before, after, package, resolved, k, target, tests, tests')
  {
    forall i | Last(before.owned, resolved, i) ensures ContentsAgree(before, after, resolved[i]) {
      assert resolved[i] in resolved;
      FollowedAgrees(before, after, resolved, resolved[i]);
    }
    KeyBeforeIsKeyAfter(before, after, package, resolved, k, target, tests, tests');
  }

  /** Nodes of one binary alias are of one configuration, and ours or not together. */
  ghost predicate Apart(owned: string -> bool, nodes: seq<Node>) {
    forall a, b :: a in nodes && b in nodes && Alias(a) == Alias(b) ==>
      NodeConfiguration(a) == NodeConfiguration(b) && owned(a.name) == owned(b.name)
  }

  /** Each third-party folder stands for some record before the step. */
  ghost predicate AllStand(before: World, nodes: seq<Node>) {
    forall node <- nodes :: node.binary != Skip && !before.owned(node.name) ==>
      HeldContent(JudgedAt(before, node), before.folder(Alias(node))).Some?
  }

  /** No third-party member's folder stands for two contents before the step. */
  ghost predicate AllUnmixed(before: World, nodes: seq<Node>) {
    forall i :: Last(before.owned, nodes, i) && !before.owned(nodes[i].name) ==>
      UnmixedAt(JudgedAt(before, nodes[i]), before.folder(Alias(nodes[i])))
  }

  /** A folder for each alias of the nodes that leaves it at the content the key before the step names. */
  function KeptFolder(before: World, nodes: seq<Node>, alias: string): Digest {
    if nodes == [] then before.folder(alias)
    else if nodes[0].binary != Skip && Alias(nodes[0]) == alias then BeforeContent(before)(nodes[0])
    else KeptFolder(before, nodes[1..], alias)
  }

  lemma {:induction false} KeptFolderIs(before: World, nodes: seq<Node>, node: Node)
    requires Apart(before.owned, nodes) && node in nodes && node.binary != Skip
    ensures KeptFolder(before, nodes, Alias(node)) == BeforeContent(before)(node)
  {
    if nodes[0].binary != Skip && Alias(nodes[0]) == Alias(node) {
      assert nodes[0] in nodes;
    } else {
      assert forall n <- nodes[1..] :: n in nodes;
      KeptFolderIs(before, nodes[1..], node);
    }
  }

  /** The worlds after the step in which every folder is as the key before it names it, but for one third-party alias at
      the content of another record it stood for. */
  lemma OtherRecordFollows(before: World, after: World, nodes: seq<Node>, node: Node, c: nat)
    requires Apart(before.owned, nodes) && AllStand(before, nodes) && node in nodes && node.binary != Skip
    requires forall n <- nodes :: n.binary != Skip && before.owned(n.name) ==> Recorded(before, n)
    requires !before.owned(node.name) && StandsFor(before, after, node, c)
    requires after.owned == before.owned && after.exported == before.exported
    requires forall alias :: alias != Alias(node) ==> after.folder(alias) == KeptFolder(before, nodes, alias)
    ensures Follows(before, after, nodes)
  {
    forall n | n in nodes && n.binary != Skip
      ensures if before.owned(n.name) then Recorded(before, n) && after.folder(Alias(n)) == RecordedContent(before, n)
              else exists i: nat :: StandsFor(before, after, n, i)
    {
      if Alias(n) == Alias(node) {
        assert StandsFor(before, after, n, c);
      } else {
        KeptFolderIs(before, nodes, n);
        if !before.owned(n.name) {
          HeldContentIsTheFirst(JudgedAt(before, n), before.folder(Alias(n)));
          var j :| FirstStanding(JudgedAt(before, n), before.folder(Alias(n)), j)
                   && JudgedAt(before, n)[j].content == HeldContent(JudgedAt(before, n), before.folder(Alias(n))).value;
          assert StandsFor(before, after, n, j);
        }
      }
    }
  }

  /** Two records of different contents, both of which the folder stands for: one is not the record that answers. */
  lemma SomeOtherRecord(outputs: seq<Judgement>, digest: Digest) returns (c: nat)
    requires !UnmixedAt(outputs, digest)
    ensures c < |outputs| && Stands(outputs[c], digest) && HeldContent(outputs, digest) != Some(outputs[c].content)
  {
    var i, j :| 0 <= i < |outputs| && 0 <= j < |outputs| && Stands(outputs[i], digest) && Stands(outputs[j], digest)
                && outputs[i].content != outputs[j].content;
    c := if HeldContent(outputs, digest) == Some(outputs[i].content) then j else i;
  }

  /** WHEN THE KEY BEFORE A STEP IS ALWAYS THE KEY AFTER IT: for every step that uses what was recorded, if and only if,
      before the step, no third-party folder of the graph stands for two recorded contents. */
  lemma OneKeyIff(before: World, package: string, resolved: seq<Node>, k: nat, target: Node,
                  tests: map<string, bool>, tests': map<string, bool>)
    requires Resolves(before, package, resolved, k, target, tests, tests')
    requires Apart(before.owned, resolved) && AllStand(before, resolved)
    ensures (forall after: World :: Follows(before, after, resolved) ==>
               SameDocument(before, after, package, resolved, k, target, tests, tests'))
            <==> AllUnmixed(before, resolved)
  {
    if AllUnmixed(before, resolved) {
      forall after: World | Follows(before, after, resolved)
        ensures SameDocument(before, after, package, resolved, k, target, tests, tests')
      {
        forall i | Last(before.owned, resolved, i) ensures ContentsAgree(before, after, resolved[i]) {
          assert resolved[i] in resolved;
          FollowedAgrees(before, after, resolved, resolved[i]);
        }
        KeyBeforeIsKeyAfter(before, after, package, resolved, k, target, tests, tests');
      }
    } else {
      var after := MixedGivesTwoKeys(before, package, resolved, k, target, tests, tests');
    }
  }

  /** A step that used what was recorded and whose two documents differ. */
  lemma MixedGivesTwoKeys(before: World, package: string, resolved: seq<Node>, k: nat, target: Node,
                          tests: map<string, bool>, tests': map<string, bool>) returns (after: World)
    requires Resolves(before, package, resolved, k, target, tests, tests')
    requires Apart(before.owned, resolved) && AllStand(before, resolved) && !AllUnmixed(before, resolved)
    ensures Follows(before, after, resolved) && !SameDocument(before, after, package, resolved, k, target, tests, tests')
  {
    hide SameDocument, Follows, Apart, Flagged;
    var i :| Last(before.owned, resolved, i) && !before.owned(resolved[i].name)
             && !UnmixedAt(JudgedAt(before, resolved[i]), before.folder(Alias(resolved[i])));
    var node := resolved[i];
    var c := SomeOtherRecord(JudgedAt(before, node), before.folder(Alias(node)));
    var content := JudgedAt(before, node)[c].content;
    after := before.(folder := alias => if alias == Alias(node) then content else KeptFolder(before, resolved, alias));
    assert node in resolved;
    OtherRecordFollows(before, after, resolved, node, c);
    assert !ContentsAgree(before, after, node);
    KeyBeforeIsKeyAfter(before, after, package, resolved, k, target, tests, tests');
  }

  /** A third-party folder that never moves, at a content of its own that an earlier record keeps as packaged. */
  lemma UnmovedFolderTwoKeys(before: World, node: Node, target: Node, tests: map<string, bool>, tests': map<string, bool>,
                             derived: Digest, kept: Digest)
    requires node.binary != Skip && target.binary != Skip && !node.test && !target.test
    requires !before.owned(node.name) && before.owned(target.name) && target.context == "host"
    requires LabelOf(node) != LabelOf(target)
    requires tests == map[LabelOf(node) := false] && tests' == map[LabelOf(node) := false, LabelOf(target) := false]
    requires derived != kept && before.folder(Alias(node)) == kept
    requires JudgedAt(before, node) == [Judgement(derived, Some(kept)), Judgement(kept, Some(kept))]
    ensures Resolves(before, target.name, [node], 1, target, tests, tests') && Follows(before, before, [node])
    ensures !SameDocument(before, before, target.name, [node], 1, target, tests, tests')
  {
    var resolved := [node];
    var graph := CreateGraph(resolved, 1, target);
    assert graph == [node, target] && target in graph;
    TwoFlagged(node, target, tests, tests');
    assert StandsFor(before, before, node, 1);
    hide Flagged, SameDocument, BeforeInputs, AfterInputs;
    assert Resolves(before, target.name, resolved, 1, target, tests, tests');
    assert Last(before.owned, resolved, 0) && !ContentsAgree(before, before, resolved[0]);
    KeyBeforeIsKeyAfter(before, before, target.name, resolved, 1, target, tests, tests');
  }

  /** A RECORDED CONTENT IS NOT ENOUGH: a folder that never moved, at the content of its own record, whose step is keyed
      otherwise before than after, so that gate G2 refuses it: an earlier record's packaged digest is this content. */
  lemma RecordedContentIsNotEnough()
    ensures exists before: World, package, resolved, k: nat, target, tests, tests' ::
              && Resolves(before, package, resolved, k, target, tests, tests') && Follows(before, before, resolved)
              && !SameDocument(before, before, package, resolved, k, target, tests, tests')
  {
    hide Resolves, Follows, SameDocument;
    var derived, kept := Sha256([0]), Sha256([1]);
    assert derived != kept by { assert derived.bytes[0] != kept.bytes[0]; }
    var outputs := [Judgement(derived, Some(kept)), Judgement(kept, Some(kept))];
    var node := Node("t", "host", Other("Cache"), false, "r", "i", "v");
    var target := Node("p", "host", Other("Build"), false, "s", "j", "w");
    var before := World(name => name == "p", _ => kept, _ => kept, map[], map[NodeConfiguration(node) := outputs]);
    assert LabelOf(node)[0] == 't' && LabelOf(target)[0] == 'p';
    assert node.name[0] != target.name[0];
    var tests: map<string, bool> := map[LabelOf(node) := false];
    var tests': map<string, bool> := map[LabelOf(node) := false, LabelOf(target) := false];
    UnmovedFolderTwoKeys(before, node, target, tests, tests', derived, kept);
  }

  lemma TwoFlagged(node: Node, target: Node, tests: map<string, bool>, tests': map<string, bool>)
    requires node.binary != Skip && target.binary != Skip && !node.test && !target.test
    requires LabelOf(node) != LabelOf(target)
    requires tests == map[LabelOf(node) := false] && tests' == map[LabelOf(node) := false, LabelOf(target) := false]
    ensures Flagged(tests, [node]) && Flagged(tests', [node, target])
  {
    assert node in [node] && node in [node, target] && target in [node, target];
    assert Bears(node, LabelOf(node)) && Bears(target, LabelOf(target));
  }
}
