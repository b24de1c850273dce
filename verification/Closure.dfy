/** Reachability over finite graphs, and what a depth-first walk keeps: shared by the recipe walks (malf_graph.py) and the
    order of third-party nodes (artefact_store.py:1501-1517). */
module Closure {

  /** What each node leads to. */
  type Edges = map<string, set<string>>

  predicate Edge(e: Edges, a: string, b: string) {
    a in e && b in e[a]
  }

  /** Every node's edges stay inside the graph. */
  ghost predicate Whole(e: Edges) {
    forall a, b :: Edge(e, a, b) ==> b in e
  }

  ghost predicate IsPath(e: Edges, path: seq<string>) {
    path != [] && forall i :: 0 <= i < |path| - 1 ==> Edge(e, path[i], path[i + 1])
  }

  ghost predicate Reach(e: Edges, a: string, b: string) {
    exists path :: IsPath(e, path) && path[0] == a && path[|path| - 1] == b
  }

  /** No cycle: nothing a node leads to leads back to it. */
  ghost predicate Acyclic(e: Edges) {
    forall a, b :: Edge(e, a, b) ==> !Reach(e, b, a)
  }

  lemma ReachSelf(e: Edges, a: string)
    ensures Reach(e, a, a)
  {
    assert IsPath(e, [a]) && [a][|[a]| - 1] == a;
  }

  lemma ReachStep(e: Edges, a: string, b: string, c: string)
    requires Reach(e, a, b) && Edge(e, b, c)
    ensures Reach(e, a, c)
  {
    var path :| IsPath(e, path) && path[0] == a && path[|path| - 1] == b;
    var longer := path + [c];
    forall i | 0 <= i < |longer| - 1 ensures Edge(e, longer[i], longer[i + 1]) {
      if i == |path| - 1 { assert longer[i] == b && longer[i + 1] == c; }
    }
    assert IsPath(e, longer) && longer[|longer| - 1] == c;
  }

  lemma ReachThrough(e: Edges, a: string, b: string, c: string)
    requires Reach(e, a, b) && Reach(e, b, c)
    ensures Reach(e, a, c)
  {
    var path :| IsPath(e, path) && path[0] == b && path[|path| - 1] == c;
    FollowPath(e, a, path, |path| - 1);
  }

  lemma {:induction false} FollowPath(e: Edges, a: string, path: seq<string>, k: nat)
    requires IsPath(e, path) && k < |path| && Reach(e, a, path[0])
    ensures Reach(e, a, path[k])
  {
    if k > 0 {
      FollowPath(e, a, path, k - 1);
      ReachStep(e, a, path[k - 1], path[k]);
    }
  }

  lemma EdgeReaches(e: Edges, a: string, b: string)
    requires Edge(e, a, b)
    ensures Reach(e, a, b)
  {
    ReachSelf(e, a);
    ReachStep(e, a, a, b);
  }

  /** A path of more than one node starts with an edge. */
  lemma ReachHasFirstEdge(e: Edges, a: string, b: string) returns (next: string)
    requires Reach(e, a, b) && a != b
    ensures Edge(e, a, next) && Reach(e, next, b)
  {
    var path :| IsPath(e, path) && path[0] == a && path[|path| - 1] == b;
    next := path[1];
    var tail := path[1..];
    forall i | 0 <= i < |tail| - 1 ensures Edge(e, tail[i], tail[i + 1]) {
      assert Edge(e, path[i + 1], path[i + 2]);
    }
    assert Edge(e, path[0], path[1]);
    assert IsPath(e, tail) && tail[0] == next && tail[|tail| - 1] == b;
  }

  /** A set closed under edges holds whatever its members reach. */
  ghost predicate Closed(e: Edges, nodes: set<string>) {
    forall a, b :: a in nodes && Edge(e, a, b) ==> b in nodes
  }

  lemma ClosedHoldsReached(e: Edges, nodes: set<string>, a: string, b: string)
    requires Closed(e, nodes) && a in nodes && Reach(e, a, b)
    ensures b in nodes
  {
    var path :| IsPath(e, path) && path[0] == a && path[|path| - 1] == b;
    ClosedAlong(e, nodes, path, |path| - 1);
  }

  lemma {:induction false} ClosedAlong(e: Edges, nodes: set<string>, path: seq<string>, k: nat)
    requires Closed(e, nodes) && IsPath(e, path) && k < |path| && path[0] in nodes
    ensures path[k] in nodes
  {
    if k > 0 {
      ClosedAlong(e, nodes, path, k - 1);
      assert Edge(e, path[k - 1], path[k]);
    }
  }

  /* ---------------------------------------------------------------- a walk */

  predicate Before(order: seq<string>, b: string, i: int) {
    exists j :: 0 <= j < i && j < |order| && order[j] == b
  }

  predicate Distinct(order: seq<string>) {
    forall i, j :: 0 <= i < j < |order| ==> order[i] != order[j]
  }

  /** Every node comes after each node it leads to, unless that node leads back to it. */
  ghost predicate Sorted(e: Edges, order: seq<string>) {
    forall i, b :: 0 <= i < |order| && Edge(e, order[i], b) ==> Before(order, b, i) || Reach(e, b, order[i])
  }

  /** WHAT A WALK KEEPS: `finished` lists the finished nodes in the order they finished, `open` are those still being
      visited; whatever a finished node leads to is finished or open. */
  ghost predicate Walked(e: Edges, finished: seq<string>, done: set<string>, open: set<string>) {
    && done !! open && done <= e.Keys && open <= e.Keys
    && Distinct(finished) && (forall r :: r in finished <==> r in done)
    && (forall a, b :: a in done && Edge(e, a, b) ==> b in done || b in open)
    && Sorted(e, finished)
  }

  /** Finishing a node whose edges all lead to finished or open nodes, where every open node leads to it. */
  lemma Finish(e: Edges, finished: seq<string>, done: set<string>, open: set<string>, ref: string)
    requires Walked(e, finished, done, open) && ref in open
    requires forall b :: Edge(e, ref, b) ==> b in done || b in open
    requires forall v <- open :: Reach(e, v, ref)
    ensures Walked(e, finished + [ref], done + {ref}, open - {ref})
  {
    var all := finished + [ref];
    forall i, b | 0 <= i < |all| && Edge(e, all[i], b) ensures Before(all, b, i) || Reach(e, b, all[i]) {
      if i < |finished| {
        assert Before(finished, b, i) || Reach(e, b, finished[i]);
        if Before(finished, b, i) {
          var j :| 0 <= j < i && j < |finished| && finished[j] == b;
          assert all[j] == b;
        }
      } else if b in done {
        assert b in finished;
        var j :| 0 <= j < |finished| && finished[j] == b;
        assert all[j] == b;
      }
    }
  }

  /** Opening a node keeps the walk. */
  lemma OpenKeeps(e: Edges, finished: seq<string>, done: set<string>, open: set<string>, ref: string)
    requires Walked(e, finished, done, open) && ref in e && ref !in done
    ensures Walked(e, finished, done, open + {ref})
  {
  }

  /** A walk that left nothing open is closed. */
  lemma WalkIsClosed(e: Edges, finished: seq<string>, done: set<string>)
    requires Walked(e, finished, done, {})
    ensures Closed(e, done)
  {
  }

  /** IN AN ACYCLIC GRAPH a walk puts every node after all that it reaches, however far. */
  lemma {:induction false} AcyclicOrder(e: Edges, finished: seq<string>, i: nat, b: string)
    requires Sorted(e, finished) && Acyclic(e) && i < |finished| && b != finished[i] && Reach(e, finished[i], b)
    ensures Before(finished, b, i)
    decreases i
  {
    var next := ReachHasFirstEdge(e, finished[i], b);
    assert !Reach(e, next, finished[i]);
    assert Before(finished, next, i);
    var j :| 0 <= j < i && j < |finished| && finished[j] == next;
    if next != b { AcyclicOrder(e, finished, j, b); }
  }

  /** The members of `finished` that are wanted, in order. */
  function Only(finished: seq<string>, wanted: set<string>): seq<string> {
    if finished == [] then []
    else
      var last := |finished| - 1;
      Only(finished[..last], wanted) + if finished[last] in wanted then [finished[last]] else []
  }

  lemma {:induction false} OnlyMembers(finished: seq<string>, wanted: set<string>)
    ensures forall r :: r in Only(finished, wanted) <==> r in finished && r in wanted
  {
    if finished != [] {
      OnlyMembers(finished[..|finished| - 1], wanted);
      assert finished == finished[..|finished| - 1] + [finished[|finished| - 1]];
    }
  }

  lemma {:induction false} OnlyDistinct(finished: seq<string>, wanted: set<string>)
    requires Distinct(finished)
    ensures Distinct(Only(finished, wanted))
  {
    if finished != [] {
      var last := |finished| - 1;
      OnlyDistinct(finished[..last], wanted);
      OnlyMembers(finished[..last], wanted);
    }
  }

  /** What stands before in the whole stands before in the part. */
  lemma {:induction false} OnlyKeepsOrder(finished: seq<string>, wanted: set<string>, i: nat, j: nat)
    requires Distinct(finished) && j < i < |finished| && finished[i] in wanted && finished[j] in wanted
    ensures exists p, q :: 0 <= q < p < |Only(finished, wanted)| && Only(finished, wanted)[p] == finished[i]
                           && Only(finished, wanted)[q] == finished[j]
    decreases |finished|
  {
    var last := |finished| - 1;
    var part := Only(finished[..last], wanted);
    if i == last {
      OnlyMembers(finished[..last], wanted);
      assert finished[j] == finished[..last][j] && finished[j] in part;
      var q :| 0 <= q < |part| && part[q] == finished[j];
      assert Only(finished, wanted)[|part|] == finished[i] && Only(finished, wanted)[q] == finished[j];
    } else {
      OnlyKeepsOrder(finished[..last], wanted, i, j);
      var p, q :| 0 <= q < p < |part| && part[p] == finished[i] && part[q] == finished[j];
      assert Only(finished, wanted)[p] == finished[i] && Only(finished, wanted)[q] == finished[j];
    }
  }

  /** Where the left-out nodes reach all that is listed, what is left is still sorted. */
  lemma OnlySorted(e: Edges, finished: seq<string>, wanted: set<string>)
    requires Distinct(finished) && Sorted(e, finished)
    requires forall b, r :: b !in wanted && b in finished && r in finished ==> Reach(e, b, r)
    ensures Sorted(e, Only(finished, wanted))
  {
    var part := Only(finished, wanted);
    OnlyMembers(finished, wanted);
    OnlyDistinct(finished, wanted);
    forall p, b | 0 <= p < |part| && Edge(e, part[p], b) ensures Before(part, b, p) || Reach(e, b, part[p]) {
      assert part[p] in part;
      var i :| 0 <= i < |finished| && finished[i] == part[p];
      if Before(finished, b, i) {
        var j :| 0 <= j < i && j < |finished| && finished[j] == b;
        assert b in finished;
        if b in wanted { OnlyKeepsOrder(finished, wanted, i, j); }
      } else {
        assert Reach(e, b, finished[i]);
      }
    }
  }

  /** Every node of the list comes after each other node of the list that it reaches. */
  ghost predicate AfterAll(e: Edges, order: seq<string>) {
    forall i, b :: 0 <= i < |order| && b in order && b != order[i] && Reach(e, order[i], b) ==> Before(order, b, i)
  }

  lemma OnlyAfterAll(e: Edges, finished: seq<string>, wanted: set<string>)
    requires Acyclic(e) && Sorted(e, finished) && Distinct(finished)
    ensures AfterAll(e, Only(finished, wanted))
  {
    var part := Only(finished, wanted);
    OnlyMembers(finished, wanted);
    OnlyDistinct(finished, wanted);
    forall i, b | 0 <= i < |part| && b in part && b != part[i] && Reach(e, part[i], b) ensures Before(part, b, i) {
      assert part[i] in part;
      var k :| 0 <= k < |finished| && finished[k] == part[i];
      AcyclicOrder(e, finished, k, b);
      var j :| 0 <= j < k && j < |finished| && finished[j] == b;
      OnlyKeepsOrder(finished, wanted, k, j);
    }
  }
}
