/** What the members of a key are named by (artefact_store.py:985-1042, 1172-1205, 1288-1296): one member for each name and
    context, under a label from which the refusals read the package back. */
module KeyLabels {
  import opened Options
  import opened ArtefactStore
  import opened KeyFirst

  lemma {:induction false} PackageIsUpToTheSlash(name: string, rest: string)
    requires '/' !in name
    ensures PackageOf(name + ("/" + rest)) == name
  {
    if name != "" {
      assert name[0] in name && forall c <- name[1..] :: c in name;
      assert (name + ("/" + rest))[1..] == name[1..] + ("/" + rest);
      PackageIsUpToTheSlash(name[1..], rest);
    }
  }

  /** A LABEL IS READ BACK: the package of a node's label is the node's name. */
  lemma PackageOfLabel(node: Node)
    requires '/' !in node.name
    ensures PackageOf(LabelOf(node)) == node.name
  {
    PackageIsUpToTheSlash(node.name, node.context);
    assert LabelOf(node) == node.name + ("/" + node.context);
  }

  /** Two nodes share a label if and only if they share name and context. */
  lemma OneLabelIff(a: Node, b: Node)
    requires '/' !in a.name && '/' !in b.name
    ensures LabelOf(a) == LabelOf(b) <==> a.name == b.name && a.context == b.context
  {
    PackageOfLabel(a);
    PackageOfLabel(b);
    var n := |a.name| + 1;
    assert LabelOf(a)[n..] == a.context;
    if LabelOf(a) == LabelOf(b) { assert LabelOf(b)[n..] == b.context; }
  }

  /** A binary alias is a configuration and the last revision, from which the configuration is read back. */
  lemma {:induction false} ConfigurationIsUpToTheHash(configuration: string, revision: string)
    requires '#' !in revision
    ensures Configuration(configuration + ("#" + revision)) == configuration
    decreases |revision|
  {
    var alias := configuration + ("#" + revision);
    assert alias[|configuration|] == '#';
    if revision == "" {
      assert alias[..|alias| - 1] == configuration;
    } else {
      var front := revision[..|revision| - 1];
      assert revision[|revision| - 1] in revision && forall c <- front :: c in revision;
      assert alias[..|alias| - 1] == configuration + ("#" + front) && alias[|alias| - 1] == revision[|revision| - 1];
      ConfigurationIsUpToTheHash(configuration, front);
    }
  }

  /** A NODE'S CONFIGURATION, written out, is what its alias and its key member both give. */
  lemma ConfigurationOfAlias(node: Node, content: Digest, test: Option<bool>)
    requires '#' !in node.prev
    ensures Configuration(Alias(node)) == node.recipe + ":" + node.packageId
    ensures ConfigurationOf(ThirdParty(node.recipe, node.packageId, content, test)) == node.recipe + ":" + node.packageId
  {
    ConfigurationIsUpToTheHash(NodeConfiguration(node), node.prev);
    assert Alias(node) == NodeConfiguration(node) + ("#" + node.prev);
  }

  /* ---------------------------------------------------------------- one member for each name and context */

  /** A node whose member is a third-party one, of that name and context. */
  predicate ThirdPartyNode(owned: string -> bool, node: Node, name: string, context: string) {
    node.binary != Skip && !owned(node.name) && node.name == name && node.context == context
  }

  ghost predicate LastThirdParty(owned: string -> bool, nodes: seq<Node>, name: string, context: string, i: int) {
    0 <= i < |nodes| && ThirdPartyNode(owned, nodes[i], name, context)
    && forall j :: i < j < |nodes| ==> !ThirdPartyNode(owned, nodes[j], name, context)
  }

  /** The third-party members are the last nodes' of each name and context, under `<name>/<context>`, and no others. */
  ghost predicate MembersByNode(owned: string -> bool, nodes: seq<Node>, members: map<string, ThirdParty>) {
    && (forall entry <- members :: exists node <- nodes ::
          node.binary != Skip && !owned(node.name) && entry == node.name + "/" + node.context)
    && forall name: string, context: string, i :: LastThirdParty(owned, nodes, name, context, i) ==>
         var entry := name + "/" + context;
         entry in members && members[entry].reference == nodes[i].recipe && members[entry].packageId == nodes[i].packageId
  }

  ghost predicate PlainNames(nodes: seq<Node>) {
    forall node <- nodes :: '/' !in node.name
  }

  /** One node more. */
  lemma MembersNext(owned: string -> bool, nodes: seq<Node>, node: Node, had: map<string, ThirdParty>,
                    now: map<string, ThirdParty>)
    requires PlainNames(nodes + [node]) && MembersByNode(owned, nodes, had)
    requires node.binary == Skip || owned(node.name) ==> now == had
    requires node.binary != Skip && !owned(node.name) ==>
               exists member: ThirdParty :: member.reference == node.recipe && member.packageId == node.packageId
                                            && now == had[LabelOf(node) := member]
    ensures MembersByNode(owned, nodes + [node], now)
  {
    var more := nodes + [node];
    assert node in more && forall n <- nodes :: n in more;
    forall entry | entry in now
      ensures exists n <- more :: n.binary != Skip && !owned(n.name) && entry == n.name + "/" + n.context
    {
      if entry in had {
        var n :| n in nodes && n.binary != Skip && !owned(n.name) && entry == n.name + "/" + n.context;
        assert n in more;
      }
    }
    forall name: string, context: string, i | LastThirdParty(owned, more, name, context, i)
      ensures var entry := name + "/" + context;
              entry in now && now[entry].reference == more[i].recipe && now[entry].packageId == more[i].packageId
    {
      if i < |nodes| {
        assert more[i] == nodes[i] && more[|nodes|] == node && nodes[i] in more;
        assert forall j :: i < j < |nodes| ==> more[j] == nodes[j];
        assert LastThirdParty(owned, nodes, name, context, i);
        OneLabelIff(nodes[i], node);
      }
    }
  }

  /** ONE MEMBER FOR EACH NAME AND CONTEXT in the key before a step: nodes of one package in two contexts have a member
      each. */
  lemma {:induction false} BeforeByNode(world: World, tests: map<string, bool>, nodes: seq<Node>)
    requires PlainNames(nodes)
    requires forall node <- nodes :: node.binary != Skip && world.owned(node.name) ==> Recorded(world, node)
    ensures MembersByNode(world.owned, nodes, BeforeInputs(world, tests, nodes).thirdParty)
  {
    if nodes != [] {
      var front, last := nodes[..|nodes| - 1], nodes[|nodes| - 1];
      assert last in nodes && nodes == front + [last] && forall node <- front :: node in nodes;
      BeforeByNode(world, tests, front);
      hide MembersByNode, BeforeInputs;
      BeforeMember(world, tests, nodes, front, last);
    }
  }

  lemma BeforeMember(world: World, tests: map<string, bool>, nodes: seq<Node>, front: seq<Node>, last: Node)
    requires nodes == front + [last] && PlainNames(nodes)
    requires forall node <- nodes :: node.binary != Skip && world.owned(node.name) ==> Recorded(world, node)
    requires MembersByNode(world.owned, front, BeforeInputs(world, tests, front).thirdParty)
    ensures MembersByNode(world.owned, nodes, BeforeInputs(world, tests, nodes).thirdParty)
  {
    hide MembersByNode, PlainNames;
    var so := BeforeInputs(world, tests, front);
    assert nodes[..|nodes| - 1] == front && nodes[|nodes| - 1] == last;
    assert BeforeInputs(world, tests, nodes) == BeforeNode(world, tests, so, last);
    var member := ThirdParty(last.recipe, last.packageId, ContentBefore(world, last), Some(Flag(tests, last)));
    assert last.binary != Skip && !world.owned(last.name) ==>
      BeforeNode(world, tests, so, last).thirdParty == so.thirdParty[LabelOf(last) := member];
    MembersNext(world.owned, front, last, so.thirdParty, BeforeNode(world, tests, so, last).thirdParty);
  }

  /** The same of the inputs after the step. */
  lemma {:induction false} AfterByNode(world: World, tests: map<string, bool>, package: string, created: string,
                                       nodes: seq<Node>)
    requires PlainNames(nodes)
    ensures MembersByNode(world.owned, nodes, AfterInputs(world, tests, package, created, nodes).thirdParty)
  {
    if nodes != [] {
      var front, last := nodes[..|nodes| - 1], nodes[|nodes| - 1];
      assert last in nodes && nodes == front + [last] && forall node <- front :: node in nodes;
      AfterByNode(world, tests, package, created, front);
      hide MembersByNode, PlainNames;
      var so := AfterInputs(world, tests, package, created, front);
      var member := ThirdParty(last.recipe, last.packageId, world.folder(Alias(last)), Some(Flag(tests, last)));
      assert last.binary != Skip && !world.owned(last.name) ==>
        AfterNode(world, tests, package, created, so, last).thirdParty == so.thirdParty[LabelOf(last) := member];
      MembersNext(world.owned, front, last, so.thirdParty, AfterNode(world, tests, package, created, so, last).thirdParty);
    }
  }

  /** TWO CONTEXTS, TWO MEMBERS: unskipped third-party nodes of different name or context are under different labels, each
      in both results. */
  lemma TwoContextsTwoMembers(before: World, after: World, tests: map<string, bool>, tests': map<string, bool>,
                              package: string, created: string, nodes: seq<Node>, a: Node, b: Node)
    requires PlainNames(nodes) && after.owned == before.owned
    requires forall node <- nodes :: node.binary != Skip && before.owned(node.name) ==> Recorded(before, node)
    requires a in nodes && b in nodes && a.binary != Skip && b.binary != Skip
    requires !before.owned(a.name) && !before.owned(b.name) && (a.name != b.name || a.context != b.context)
    ensures LabelOf(a) != LabelOf(b)
    ensures {LabelOf(a), LabelOf(b)} <= BeforeInputs(before, tests, nodes).thirdParty.Keys
    ensures {LabelOf(a), LabelOf(b)} <= AfterInputs(after, tests', package, created, nodes).thirdParty.Keys
  {
    OneLabelIff(a, b);
    BeforeByNode(before, tests, nodes);
    AfterByNode(after, tests', package, created, nodes);
    hide BeforeInputs, AfterInputs;
    var i := LastThirdPartyOf(before.owned, nodes, a);
    var j := LastThirdPartyOf(before.owned, nodes, b);
  }

  lemma {:induction false} LastThirdPartyOf(owned: string -> bool, nodes: seq<Node>, node: Node) returns (i: int)
    requires node in nodes && node.binary != Skip && !owned(node.name)
    ensures LastThirdParty(owned, nodes, node.name, node.context, i)
  {
    var front, last := nodes[..|nodes| - 1], nodes[|nodes| - 1];
    if ThirdPartyNode(owned, last, node.name, node.context) {
      i := |nodes| - 1;
    } else {
      assert nodes == front + [last];
      i := LastThirdPartyOf(owned, front, node);
    }
  }

  /** THE TEST FLAG OF A MEMBER: set exactly when every unskipped node of that name and context is a test requirement. */
  lemma FlagIs(tests: map<string, bool>, nodes: seq<Node>, node: Node)
    requires PlainNames(nodes) && Flagged(tests, nodes) && node in nodes && node.binary != Skip
    ensures Flag(tests, node) <==>
            forall other <- nodes :: other.binary != Skip && other.name == node.name && other.context == node.context ==> other.test
  {
    assert Bears(node, LabelOf(node));
    forall other | other in nodes
      ensures Bears(other, LabelOf(node)) <==>
              other.binary != Skip && other.name == node.name && other.context == node.context
    {
      OneLabelIff(other, node);
    }
  }
}
