/** The order in which third-party nodes are kept (artefact_store.py:1501-1517): the wanted nodes of a graph, each after
    every node it depends on. */
module DependencyOrder {
  import opened Closure

  /** A node's dependencies, in the order they are visited. */
  type Graph = map<string, seq<string>>

  function EdgesIn(nodes: Graph): Edges {
    map a | a in nodes :: set b <- nodes[a]
  }

  class Order {
    const nodes: Graph
    const wanted: set<string>
    var ordered: seq<string>
    var seen: set<string>
    /** The nodes whose visits are not over, and the nodes in the order their visits ended. */
    ghost var open: set<string>
    ghost var finished: seq<string>

    ghost predicate Valid()
      reads this
    {
      && Whole(EdgesIn(nodes)) && open <= seen
      && Walked(EdgesIn(nodes), finished, seen - open, open)
      && ordered == Only(finished, wanted)
    }

    constructor (nodes: Graph, wanted: set<string>)
      requires Whole(EdgesIn(nodes))
      ensures Valid() && this.nodes == nodes && this.wanted == wanted && seen == {} && open == {}
    {
      this.nodes, this.wanted := nodes, wanted;
      ordered, seen, open, finished := [], {}, {}, [];
    }

    /** `visit`, which marks a node before it visits the node's dependencies. */
    method Visit(index: string)
      requires Valid() && index in nodes && forall v <- open :: Reach(EdgesIn(nodes), v, index)
      modifies this
      ensures Valid() && open == old(open) && old(seen) <= seen && index in seen
      ensures forall r <- seen - old(seen) :: Reach(EdgesIn(nodes), index, r)
      decreases nodes.Keys - seen, 1
    {
      if index in seen { return; }
      OpenNode(EdgesIn(nodes), finished, seen, open, index);
      ReachSelf(EdgesIn(nodes), index);
      seen := seen + {index};
      open := open + {index};
      VisitAll(index);
      CloseNode(EdgesIn(nodes), finished, seen, open, index, wanted);
      if index in wanted { ordered := ordered + [index]; }
      finished := finished + [index];
      open := open - {index};
    }

    /** The loop of `visit`. */
    method VisitAll(index: string)
      requires Valid() && index in nodes && index in open && forall v <- open :: Reach(EdgesIn(nodes), v, index)
      modifies this
      ensures Valid() && open == old(open) && old(seen) <= seen && EdgesIn(nodes)[index] <= seen
      ensures forall r <- seen - old(seen) :: Reach(EdgesIn(nodes), index, r)
      decreases nodes.Keys - seen, 2
    {
      var dependencies := nodes[index];
      for i := 0 to |dependencies|
        invariant Valid() && open == old(open) && old(seen) <= seen
        invariant forall b <- dependencies[..i] :: b in seen
        invariant forall r <- seen - old(seen) :: Reach(EdgesIn(nodes), index, r)
      {
        var b := dependencies[i];
        assert Edge(EdgesIn(nodes), index, b);
        StepInto(EdgesIn(nodes), index, b, open);
        ghost var before := seen;
        Visit(b);
        ReachedThrough(EdgesIn(nodes), index, b, seen - before);
      }
      assert dependencies[..|dependencies|] == dependencies;
    }
  }

  lemma OpenNode(e: Edges, finished: seq<string>, seen: set<string>, open: set<string>, index: string)
    requires Walked(e, finished, seen - open, open) && open <= seen && index in e && index !in seen
    ensures Walked(e, finished, (seen + {index}) - (open + {index}), open + {index})
  {
    OpenKeeps(e, finished, seen - open, open, index);
    assert (seen + {index}) - (open + {index}) == seen - open;
  }

  lemma CloseNode(e: Edges, finished: seq<string>, seen: set<string>, open: set<string>, index: string,
                  wanted: set<string>)
    requires Walked(e, finished, seen - open, open) && open <= seen && index in open && e[index] <= seen
    requires forall v <- open :: Reach(e, v, index)
    ensures Walked(e, finished + [index], seen - (open - {index}), open - {index})
    ensures Only(finished + [index], wanted) == Only(finished, wanted) + if index in wanted then [index] else []
  {
    Finish(e, finished, seen - open, open, index);
    assert (seen - open) + {index} == seen - (open - {index});
    assert (finished + [index])[..|finished|] == finished;
  }

  lemma StepInto(e: Edges, index: string, b: string, open: set<string>)
    requires Edge(e, index, b) && forall v <- open :: Reach(e, v, index)
    ensures forall v <- open :: Reach(e, v, b)
  {
    forall v | v in open ensures Reach(e, v, b) { ReachStep(e, v, index, b); }
  }

  lemma ReachedThrough(e: Edges, index: string, b: string, visited: set<string>)
    requires Edge(e, index, b) && forall r <- visited :: Reach(e, b, r)
    ensures forall r <- visited :: Reach(e, index, r)
  {
    EdgeReaches(e, index, b);
    forall r | r in visited ensures Reach(e, index, r) { ReachThrough(e, index, b, r); }
  }

  /** `_dependency_order`: EXACTLY THE WANTED NODES, each once, each after every other wanted node it depends on, however
      far and through whatever other nodes, in a graph without cycles. */
  method Ordered(nodes: Graph, wanted: seq<string>) returns (ordered: seq<string>)
    requires Whole(EdgesIn(nodes)) && forall index <- wanted :: index in nodes
    ensures Distinct(ordered) && forall r :: r in ordered <==> r in wanted
    ensures Acyclic(EdgesIn(nodes)) ==> AfterAll(EdgesIn(nodes), ordered)
  {
    var walk := new Order(nodes, set index <- wanted);
    for i := 0 to |wanted|
      invariant fresh(walk) && walk.Valid() && walk.nodes == nodes && walk.wanted == (set index <- wanted)
      invariant walk.open == {} && forall index <- wanted[..i] :: index in walk.seen
    {
      walk.Visit(wanted[i]);
    }
    assert wanted[..|wanted|] == wanted;
    ordered := walk.ordered;
    OnlyMembers(walk.finished, walk.wanted);
    OnlyDistinct(walk.finished, walk.wanted);
    assert walk.seen - {} == walk.seen;
    if Acyclic(EdgesIn(nodes)) {
      OnlyAfterAll(EdgesIn(nodes), walk.finished, walk.wanted);
    }
  }
}
