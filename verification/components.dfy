/** Strongly connected components of a directed graph, and the list of those that are reported as cycles. */
module Components {
  import opened Common
  import opened Digraph

  /** The components that are reported: those with at least two nodes. */
  function Reported(comps: seq<seq<Node>>): seq<seq<Node>> {
    if comps == [] then []
    else
      var last := comps[|comps| - 1];
      Reported(comps[..|comps| - 1]) + (if |last| > 1 then [last] else [])
  }

  /** A maximal set of mutually reachable nodes, listed without repeats. */
  ghost predicate IsComponent(adj: Adjacency, c: seq<Node>) {
    && c != [] && Distinct(c)
    && forall x, y :: x in c ==> x in adj && (y in c <==> Mutual(adj, x, y))
  }

  /** No node of an earlier list reaches a node of a later one. */
  ghost predicate SinksFirst(adj: Adjacency, cs: seq<seq<Node>>) {
    forall i, j, x, y :: 0 <= i < j < |cs| && x in cs[i] && y in cs[j] ==> !Reach(adj, x, y)
  }

  /** All components, each once, in reverse topological order. */
  ghost predicate IsCondensation(adj: Adjacency, comps: seq<seq<Node>>) {
    && (forall i :: 0 <= i < |comps| ==> IsComponent(adj, comps[i]))
    && (forall x :: x in adj ==> exists i :: 0 <= i < |comps| && x in comps[i])
    && SinksFirst(adj, comps)
  }

  /** The components with at least two nodes, each once, in reverse topological order. */
  ghost predicate ListsCycles(adj: Adjacency, cycles: seq<seq<Node>>) {
    && (forall i :: 0 <= i < |cycles| ==> IsComponent(adj, cycles[i]) && |cycles[i]| >= 2)
    && (forall u, v :: u in adj && u != v && Mutual(adj, u, v) ==>
                         exists i :: 0 <= i < |cycles| && u in cycles[i] && v in cycles[i])
    && SinksFirst(adj, cycles)
  }

  /** Reporting drops exactly the single-node components. */
  lemma {:induction false} ReportedMembers(comps: seq<seq<Node>>, c: seq<Node>)
    ensures c in Reported(comps) <==> c in comps && |c| > 1
  {
    if comps != [] {
      var n := |comps| - 1;
      ReportedMembers(comps[..n], c);
      assert comps == comps[..n] + [comps[n]];
    }
  }

  /** Reporting keeps the order. */
  lemma {:induction false} ReportedSinksFirst(adj: Adjacency, comps: seq<seq<Node>>)
    requires SinksFirst(adj, comps)
    ensures SinksFirst(adj, Reported(comps))
  {
    if comps != [] {
      var n := |comps| - 1;
      var before, cycles := Reported(comps[..n]), Reported(comps);
      ReportedSinksFirst(adj, comps[..n]);
      forall i, j, x, y | 0 <= i < j < |cycles| && x in cycles[i] && y in cycles[j]
        ensures !Reach(adj, x, y)
      {
        if j < |before| {
          assert before[i] == cycles[i] && before[j] == cycles[j];
        } else {
          ReportedMembers(comps[..n], cycles[i]);
          var k :| 0 <= k < n && comps[k] == cycles[i];
        }
      }
    }
  }

  lemma ReportedListsCycles(adj: Adjacency, comps: seq<seq<Node>>)
    requires Closed(adj) && IsCondensation(adj, comps)
    ensures ListsCycles(adj, Reported(comps))
  {
    var cycles := Reported(comps);
    ReportedSinksFirst(adj, comps);
    forall i | 0 <= i < |cycles|
      ensures IsComponent(adj, cycles[i]) && |cycles[i]| >= 2
    {
      ReportedMembers(comps, cycles[i]);
    }
    forall u, v | u in adj && u != v && Mutual(adj, u, v)
      ensures exists i :: 0 <= i < |cycles| && u in cycles[i] && v in cycles[i]
    {
      var k :| 0 <= k < |comps| && u in comps[k];
      assert IsComponent(adj, comps[k]);
      assert v in comps[k];
      TwoMembers(comps[k], u, v);
      ReportedMembers(comps, comps[k]);
    }
  }

  lemma TwoMembers(c: seq<Node>, u: Node, v: Node)
    requires u in c && v in c && u != v
    ensures |c| > 1
  {
  }

  // ----- Consequences -----

  /** No array is returned exactly when no closed walk visits two distinct nodes: self-loops are not reported. */
  lemma EmptyIffNoProperCycle(adj: Adjacency, cycles: seq<seq<Node>>)
    requires Closed(adj) && ListsCycles(adj, cycles)
    ensures cycles == [] <==>
            forall p :: IsWalk(adj, p) && p[0] in adj && p[0] == p[|p| - 1] ==> forall x :: x in p ==> x == p[0]
  {
    if cycles != [] {
      var c := cycles[0];
      assert c[0] in c && c[1] in c;
      assert Mutual(adj, c[0], c[1]);
      var p :| Joins(adj, p, c[0], c[1]);
      var q :| Joins(adj, q, c[1], c[0]);
      JoinWalks(adj, p, q);
      assert c[1] in p + q[1..];
    } else {
      forall p, x | IsWalk(adj, p) && p[0] in adj && p[0] == p[|p| - 1] && x in p
        ensures x == p[0]
      {
        var i :| 0 <= i < |p| && p[i] == x;
        WalkReach(adj, p, 0, i);
        WalkReach(adj, p, i, |p| - 1);
        assert Mutual(adj, p[0], x);
      }
    }
  }

  /** No closed walk of positive length. */
  ghost predicate Acyclic(adj: Adjacency) {
    forall p :: IsWalk(adj, p) && |p| >= 2 ==> p[0] != p[|p| - 1]
  }

  ghost predicate HasSelfLoop(adj: Adjacency) {
    exists u :: Edge(adj, u, u)
  }

  lemma LoopIsWalk(adj: Adjacency, u: Node)
    requires Edge(adj, u, u)
    ensures IsWalk(adj, [u, u])
  {
    assert Hop(adj, [u, u], 0);
  }

  /** The graph is acyclic if and only if no array is returned and no node has an edge to itself. */
  lemma AcyclicIffEmptyWithoutLoops(adj: Adjacency, cycles: seq<seq<Node>>)
    requires Closed(adj) && ListsCycles(adj, cycles)
    ensures Acyclic(adj) <==> cycles == [] && !HasSelfLoop(adj)
  {
    EmptyIffNoProperCycle(adj, cycles);
    if Acyclic(adj) {
      forall u
        ensures !Edge(adj, u, u)
      {
        if Edge(adj, u, u) {
          LoopIsWalk(adj, u);
        }
      }
      forall p, x | IsWalk(adj, p) && p[0] == p[|p| - 1] && x in p
        ensures x == p[0]
      {
      }
    } else {
      var p :| IsWalk(adj, p) && |p| >= 2 && p[0] == p[|p| - 1];
      assert Hop(adj, p, 0);
      assert p[1] in p;
    }
  }

  // ----- What an array does not say -----

  lemma OnlySuccessor(adj: Adjacency, p: seq<Node>, i: nat, next: Node)
    requires IsWalk(adj, p) && i < |p| - 1 && p[i] in adj && adj[p[i]] == [next]
    ensures p[i + 1] == next
  {
    assert Hop(adj, p, i);
  }

  lemma MemberIsKnown(adj: Adjacency, c: seq<Node>, i: nat)
    requires IsComponent(adj, c) && i < |c|
    ensures c[i] in adj
  {
    assert c[i] in c;
  }

  /**
   * An array is a component in order of discovery, not a closed walk: where `b` and `c` are both joined with `a` in
   * both directions and with nothing else, no list of the component can be walked around.
   */
  lemma ComponentNeedNotBeAWalk(a: Node, b: Node, c: Node, list: seq<Node>)
    requires a != b && b != c && a != c
    requires IsComponent(map[a := [b, c], b := [a], c := [a]], list)
    ensures !IsWalk(map[a := [b, c], b := [a], c := [a]], list + [list[0]])
  {
    var adj := map[a := [b, c], b := [a], c := [a]];
    assert Edge(adj, a, b) && Edge(adj, b, a) && Edge(adj, a, c) && Edge(adj, c, a);
    ReachEdge(adj, a, b);
    ReachEdge(adj, b, a);
    ReachEdge(adj, a, c);
    ReachEdge(adj, c, a);
    ReachSelf(adj, a);
    var x := list[0];
    assert Mutual(adj, x, a);
    assert a in list;
    assert Mutual(adj, a, b) && Mutual(adj, a, c);
    var i :| 0 <= i < |list| && list[i] == b;
    var j :| 0 <= j < |list| && list[j] == c;
    if IsWalk(adj, list + [x]) {
      OnlySuccessor(adj, list + [x], i, a);
      OnlySuccessor(adj, list + [x], j, a);
    }
  }

  /**
   * An empty answer means an acyclic graph exactly if no node has an edge to itself: self-loops are not reported,
   * although they are closed walks.
   */
  lemma EmptyMeansAcyclic(adj: Adjacency)
    requires Closed(adj) && ListsCycles(adj, [])
    ensures Acyclic(adj) <==> !HasSelfLoop(adj)
  {
    AcyclicIffEmptyWithoutLoops(adj, []);
  }

  /** A self-loop is a closed walk, yet nothing is reported: an empty answer does not mean an acyclic graph. */
  lemma SelfLoopIsNotReported(a: Node, cycles: seq<seq<Node>>)
    requires ListsCycles(map[a := [a]], cycles)
    ensures cycles == [] && IsWalk(map[a := [a]], [a, a])
  {
    var adj := map[a := [a]];
    assert Edge(adj, a, a) && Hop(adj, [a, a], 0);
    if cycles != [] {
      MemberIsKnown(adj, cycles[0], 0);
      MemberIsKnown(adj, cycles[0], 1);
    }
  }
}
