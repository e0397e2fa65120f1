/** In how far the nodes of a reported array form a cycle, in the order in which they are listed. */
module CycleWalks {
  import opened Common
  import opened Digraph
  import opened Components
  import opened DepthFirst
  import opened CycleDetector

  /** An order that visits all nodes of the graph, each once, depth first. */
  ghost predicate IsSearchOrder(adj: Adjacency, order: seq<Node>) {
    && Distinct(order)
    && (forall x :: x in adj ==> x in order)
    && Gapless(adj, order, 0)
  }

  /** What the search itself promises is enough. */
  lemma SearchOrders(adj: Adjacency, nodes: seq<Node>)
    requires Closed(adj) && forall x :: x in adj <==> x in nodes
    ensures IsSearchOrder(adj, VisitAll(adj, [], nodes))
  {
    VisitAllIsGapless(adj, [], nodes);
    VisitAllCompletes(adj, [], nodes);
  }

  /** All that is discovered between a node and one of its successors can be reached from that node. */
  lemma {:induction false} ReachesBetween(adj: Adjacency, order: seq<Node>, a: nat, z: nat, c: nat)
    requires Gapless(adj, order, 0) && a <= z <= c < |order| && a < c && Follows(adj, order, a, c)
    ensures Reach(adj, order[a], order[z])
    decreases z
  {
    if z == a {
      ReachSelf(adj, order[a]);
    } else {
      assert Found(adj, order, a, z);
      var q: nat :| a <= q < z && Follows(adj, order, q, z);
      ReachesBetween(adj, order, a, q, c);
      ReachEdge(adj, order[q], order[z]);
      ReachTrans(adj, order[a], order[q], order[z]);
    }
  }

  /** A walk that starts before position `b` of the order and ends there passes from before it to it or beyond. */
  lemma {:induction false} Crossing(adj: Adjacency, order: seq<Node>, p: seq<Node>, a: nat, b: nat)
    returns (i: nat, x: nat, c: nat)
    requires Closed(adj) && forall u :: u in adj ==> u in order
    requires IsWalk(adj, p) && a < b < |order| && p[0] == order[a] && p[|p| - 1] == order[b] && order[a] != order[b]
    ensures i < |p| - 1 && x < b <= c < |order| && p[i] == order[x] && p[i + 1] == order[c] && Edge(adj, p[i], p[i + 1])
    decreases |p|
  {
    assert Hop(adj, p, 0);
    assert p[1] in order;
    var k :| 0 <= k < |order| && order[k] == p[1];
    if k >= b {
      i, x, c := 0, a, k;
    } else {
      var rest := p[1..];
      assert forall j :: 0 <= j < |rest| - 1 ==> Hop(adj, p, j + 1) ==> Hop(adj, rest, j);
      if order[k] == order[b] {
        i, x, c := 0, a, b;
      } else {
        i, x, c := Crossing(adj, order, rest, k, b);
        i := i + 1;
      }
    }
  }

  lemma MembersReach(adj: Adjacency, c: seq<Node>, x: Node, y: Node)
    requires IsComponent(adj, c) && x in c
    ensures y in c <==> Reach(adj, x, y) && Reach(adj, y, x)
  {
    assert y in c <==> Mutual(adj, x, y);
  }

  /** A member of a component that is not its first to be discovered has a predecessor in it, discovered before. */
  lemma FoundInside(adj: Adjacency, order: seq<Node>, c: seq<Node>, a: nat, b: nat) returns (q: nat)
    requires Closed(adj) && IsSearchOrder(adj, order) && IsComponent(adj, c)
    requires a < b < |order| && order[a] in c && order[b] in c
    ensures q < b && order[q] in c && Edge(adj, order[q], order[b])
  {
    var r, w := order[a], order[b];
    MembersReach(adj, c, r, w);
    var p :| Joins(adj, p, r, w);
    var i, x, z := Crossing(adj, order, p, a, b);
    assert Follows(adj, order, x, z);
    assert Found(adj, order, x, b);
    q :| x <= q < b && Follows(adj, order, q, b);
    WalkReach(adj, p, 0, i);
    ReachesBetween(adj, order, x, q, z);
    ReachTrans(adj, r, order[x], order[q]);
    ReachEdge(adj, order[q], w);
    ReachTrans(adj, order[q], w, r);
    MembersReach(adj, c, r, order[q]);
  }

  /** Each member of an array but the first is entered by an edge from an earlier member. */
  lemma EnteredFromEarlier(adj: Adjacency, order: seq<Node>, c: seq<Node>, j: nat) returns (i: nat)
    requires Closed(adj) && IsSearchOrder(adj, order) && IsComponent(adj, c) && Subsequence(c, order)
    requires 0 < j < |c|
    ensures i < j && Edge(adj, c[i], c[j])
  {
    var ps: seq<nat> :| IsSubsequenceAt(c, order, ps);
    assert At(order, ps, c, 0) && At(order, ps, c, j);
    var q := FoundInside(adj, order, c, ps[0], ps[j]);
    i :| 0 <= i < |c| && c[i] == order[q];
    assert At(order, ps, c, i);
    assert ps[i] == q;
  }

  /** The first member is entered from another one: the component can be walked around, if not in this order. */
  lemma {:induction false} EnteredAlong(adj: Adjacency, p: seq<Node>, v: Node) returns (i: nat)
    requires IsWalk(adj, p) && p[0] != v && p[|p| - 1] == v
    ensures i < |p| - 1 && p[i] != v && p[i + 1] == v && Edge(adj, p[i], v)
    decreases |p|
  {
    assert Hop(adj, p, 0);
    if p[1] == v {
      i := 0;
    } else {
      var rest := p[1..];
      assert forall j :: 0 <= j < |rest| - 1 ==> Hop(adj, p, j + 1) ==> Hop(adj, rest, j);
      i := EnteredAlong(adj, rest, v);
      i := i + 1;
    }
  }

  lemma FirstIsEntered(adj: Adjacency, c: seq<Node>) returns (m: nat)
    requires IsComponent(adj, c) && |c| >= 2
    ensures 0 < m < |c| && Edge(adj, c[m], c[0])
  {
    assert c[1] in c && c[0] in c;
    MembersReach(adj, c, c[1], c[0]);
    var p :| Joins(adj, p, c[1], c[0]);
    var i := EnteredAlong(adj, p, c[0]);
    WalkReach(adj, p, 0, i);
    WalkReach(adj, p, i, |p| - 1);
    ReachTrans(adj, p[i], c[0], c[1]);
    MembersReach(adj, c, c[1], p[i]);
    m :| 0 <= m < |c| && c[m] == p[i];
  }

  /** Edges inside the component, loops apart, leave each member for one node only. */
  ghost predicate SingleSuccessors(adj: Adjacency, c: seq<Node>) {
    forall x, y, z {:trigger Edge(adj, x, y), Edge(adj, x, z)} ::
      x in c && y in c && z in c && y != x && z != x && Edge(adj, x, y) && Edge(adj, x, z) ==> y == z
  }

  lemma OneSuccessor(adj: Adjacency, c: seq<Node>, i: nat, j: nat, k: nat)
    requires SingleSuccessors(adj, c) && Distinct(c) && i < |c| && j < |c| && k < |c| && i != j && i != k
    requires Edge(adj, c[i], c[j]) && Edge(adj, c[i], c[k])
    ensures j == k
  {
    assert c[i] in c && c[j] in c && c[k] in c;
  }

  lemma {:induction false} NextIsSuccessor(adj: Adjacency, order: seq<Node>, c: seq<Node>, j: nat)
    requires Closed(adj) && IsSearchOrder(adj, order) && IsComponent(adj, c) && Subsequence(c, order)
    requires SingleSuccessors(adj, c) && 0 < j < |c|
    ensures Edge(adj, c[j - 1], c[j])
  {
    var i := EnteredFromEarlier(adj, order, c, j);
    if i < j - 1 {
      NextIsSuccessor(adj, order, c, i + 1);
      OneSuccessor(adj, c, i, i + 1, j);
    }
  }

  /** Such a component is listed as the cycle it is: the array, back to its first node, is a closed walk. */
  lemma ArrayIsCycle(adj: Adjacency, order: seq<Node>, c: seq<Node>)
    requires Closed(adj) && IsSearchOrder(adj, order) && IsComponent(adj, c) && Subsequence(c, order)
    requires SingleSuccessors(adj, c) && |c| >= 2
    ensures IsWalk(adj, c + [c[0]])
  {
    var p, n := c + [c[0]], |c|;
    var m := FirstIsEntered(adj, c);
    if m < n - 1 {
      NextIsSuccessor(adj, order, c, m + 1);
      OneSuccessor(adj, c, m, m + 1, 0);
    }
    forall i | 0 <= i < n
      ensures Hop(adj, p, i)
    {
      if i < n - 1 {
        NextIsSuccessor(adj, order, c, i + 1);
      }
    }
  }

  // ----- What `detectCycles` returns -----

  /** What the method promises of its results. */
  ghost predicate Detected(nodes: seq<Node>, edges: seq<EdgeRecord>, cycles: seq<seq<Node>>, comps: seq<seq<Node>>,
                           order: seq<Node>, scans: multiset<(Node, nat)>) {
    var adj := AdjacencyOf(nodes, edges);
    && ListsCycles(adj, cycles) && cycles == Reported(comps) && IsCondensation(adj, comps)
    && WorkedOnce(adj, comps, order, scans) && order == VisitAll(adj, [], nodes)
  }

  lemma ArraysFollowOrder(nodes: seq<Node>, edges: seq<EdgeRecord>, cycles: seq<seq<Node>>, comps: seq<seq<Node>>,
                          order: seq<Node>, scans: multiset<(Node, nat)>, c: seq<Node>)
    requires Detected(nodes, edges, cycles, comps, order, scans) && c in cycles
    ensures var adj := AdjacencyOf(nodes, edges);
            Closed(adj) && IsSearchOrder(adj, order) && IsComponent(adj, c) && |c| >= 2 && Subsequence(c, order)
  {
    var adj := AdjacencyOf(nodes, edges);
    EdgesOfAdjacency(nodes, edges);
    SearchOrders(adj, nodes);
    ReportedMembers(comps, c);
    var i :| 0 <= i < |comps| && comps[i] == c;
  }

  /**
   * In every reported array, each node but the first is entered from an earlier one, and the first from another one.
   */
  lemma MembersAreEntered(nodes: seq<Node>, edges: seq<EdgeRecord>, cycles: seq<seq<Node>>, comps: seq<seq<Node>>,
                          order: seq<Node>, scans: multiset<(Node, nat)>, c: seq<Node>, j: nat)
    requires Detected(nodes, edges, cycles, comps, order, scans) && c in cycles && j < |c|
    ensures exists i :: 0 <= i < |c| && (j > 0 ==> i < j) && (j == 0 ==> i > 0) && EdgeRecord(c[i], c[j]) in edges
  {
    ArraysFollowOrder(nodes, edges, cycles, comps, order, scans, c);
    EdgesOfAdjacency(nodes, edges);
    var adj := AdjacencyOf(nodes, edges);
    if j > 0 {
      var i := EnteredFromEarlier(adj, order, c, j);
    } else {
      var i := FirstIsEntered(adj, c);
    }
  }

  /** Two edges inside `c` from the same node. */
  ghost predicate Fork(c: seq<Node>, e: EdgeRecord, f: EdgeRecord) {
    e.from == f.from && e.from in c && e.to in c && f.to in c && e.to != e.from && f.to != f.from && e.to != f.to
  }

  /** As the edges are listed, the members of `c` have one successor each among them, loops apart. */
  ghost predicate OneWay(edges: seq<EdgeRecord>, c: seq<Node>) {
    forall e, f :: e in edges && f in edges ==> !Fork(c, e, f)
  }

  /** An edge leads from this node of the array to the next, from the last to the first. */
  ghost predicate LeadsOn(edges: seq<EdgeRecord>, c: seq<Node>, i: nat)
    requires i < |c|
  {
    EdgeRecord(c[i], if i == |c| - 1 then c[0] else c[i + 1]) in edges
  }

  lemma OneWayIsSingle(nodes: seq<Node>, edges: seq<EdgeRecord>, c: seq<Node>)
    requires OneWay(edges, c)
    ensures SingleSuccessors(AdjacencyOf(nodes, edges), c)
  {
    var adj := AdjacencyOf(nodes, edges);
    EdgesOfAdjacency(nodes, edges);
    hide AdjacencyOf, Edge;
    forall x, y, z | x in c && y in c && z in c && y != x && z != x && Edge(adj, x, y) && Edge(adj, x, z)
      ensures y == z
    {
      assert !Fork(c, EdgeRecord(x, y), EdgeRecord(x, z));
    }
  }

  /** Where the component of an array is a simple cycle, the array lists it in the order of its edges. */
  lemma ReportedArrayIsCycle(nodes: seq<Node>, edges: seq<EdgeRecord>, cycles: seq<seq<Node>>, comps: seq<seq<Node>>,
                             order: seq<Node>, scans: multiset<(Node, nat)>, c: seq<Node>)
    requires Detected(nodes, edges, cycles, comps, order, scans) && c in cycles && OneWay(edges, c)
    ensures forall i :: 0 <= i < |c| ==> LeadsOn(edges, c, i)
  {
    hide Detected, OneWay, AdjacencyOf, Edge, IsSearchOrder, IsComponent, Subsequence, SingleSuccessors, Closed;
    var adj := AdjacencyOf(nodes, edges);
    EdgesOfAdjacency(nodes, edges);
    ArraysFollowOrder(nodes, edges, cycles, comps, order, scans, c);
    OneWayIsSingle(nodes, edges, c);
    ArrayIsCycle(adj, order, c);
    forall i | 0 <= i < |c|
      ensures LeadsOn(edges, c, i)
    {
      assert Hop(adj, c + [c[0]], i);
    }
  }

  /** An empty answer means an acyclic graph exactly if no known node is listed with an edge to itself. */
  lemma EmptyMeansAcyclicEdges(nodes: seq<Node>, edges: seq<EdgeRecord>, cycles: seq<seq<Node>>)
    requires ListsCycles(AdjacencyOf(nodes, edges), cycles)
    ensures Acyclic(AdjacencyOf(nodes, edges)) <==>
            cycles == [] && forall n :: n in nodes ==> EdgeRecord(n, n) !in edges
  {
    EdgesOfAdjacency(nodes, edges);
    AcyclicIffEmptyWithoutLoops(AdjacencyOf(nodes, edges), cycles);
  }
}
