/** Directed graphs given by adjacency lists, walks and reachability. */
module Digraph {

  /** A node, known by its name. */
  datatype Node = Node(name: string)

  type Adjacency = map<Node, seq<Node>>

  ghost predicate Edge(adj: Adjacency, u: Node, v: Node) {
    u in adj && v in adj[u]
  }

  /** Every listed target is itself a node. */
  ghost predicate Closed(adj: Adjacency) {
    forall u, v :: Edge(adj, u, v) ==> v in adj
  }

  /** Position `i` of `p` and the next one are joined by an edge. */
  ghost predicate Hop(adj: Adjacency, p: seq<Node>, i: nat)
    requires i < |p| - 1
  {
    Edge(adj, p[i], p[i + 1])
  }

  ghost predicate IsWalk(adj: Adjacency, p: seq<Node>) {
    |p| > 0 && forall i :: 0 <= i < |p| - 1 ==> Hop(adj, p, i)
  }

  ghost predicate Joins(adj: Adjacency, p: seq<Node>, u: Node, v: Node) {
    IsWalk(adj, p) && p[0] == u && p[|p| - 1] == v
  }

  ghost predicate Reach(adj: Adjacency, u: Node, v: Node) {
    exists p :: Joins(adj, p, u, v)
  }

  ghost predicate Mutual(adj: Adjacency, u: Node, v: Node) {
    Reach(adj, u, v) && Reach(adj, v, u)
  }

  lemma ReachSelf(adj: Adjacency, u: Node)
    ensures Reach(adj, u, u)
  {
    assert Joins(adj, [u], u, u);
  }

  lemma ReachEdge(adj: Adjacency, u: Node, v: Node)
    requires Edge(adj, u, v)
    ensures Reach(adj, u, v)
  {
    assert Joins(adj, [u, v], u, v);
  }

  lemma JoinWalks(adj: Adjacency, p: seq<Node>, q: seq<Node>)
    requires IsWalk(adj, p) && IsWalk(adj, q) && p[|p| - 1] == q[0]
    ensures Joins(adj, p + q[1..], p[0], q[|q| - 1])
  {
    var r := p + q[1..];
    forall i | 0 <= i < |r| - 1
      ensures Hop(adj, r, i)
    {
      if i < |p| - 1 {
        assert Hop(adj, p, i);
      } else {
        assert Hop(adj, q, i - (|p| - 1));
      }
    }
  }

  lemma ReachTrans(adj: Adjacency, u: Node, v: Node, w: Node)
    requires Reach(adj, u, v) && Reach(adj, v, w)
    ensures Reach(adj, u, w)
  {
    var p :| Joins(adj, p, u, v);
    var q :| Joins(adj, q, v, w);
    JoinWalks(adj, p, q);
  }

  /** A walk never leaves a set that edges do not leave. */
  lemma {:induction false} WalkStays(adj: Adjacency, p: seq<Node>, s: set<Node>)
    requires IsWalk(adj, p) && p[0] in s
    requires forall u, v :: u in s && Edge(adj, u, v) ==> v in s
    ensures p[|p| - 1] in s
  {
    if |p| > 1 {
      assert Hop(adj, p, 0);
      assert forall i :: 0 <= i < |p[1..]| - 1 ==> Hop(adj, p, i + 1) ==> Hop(adj, p[1..], i);
      WalkStays(adj, p[1..], s);
    }
  }

  lemma ReachStays(adj: Adjacency, u: Node, v: Node, s: set<Node>)
    requires Reach(adj, u, v) && u in s
    requires forall x, y :: x in s && Edge(adj, x, y) ==> y in s
    ensures v in s
  {
    var p :| Joins(adj, p, u, v);
    WalkStays(adj, p, s);
  }

  /** Two nodes of one walk: the earlier reaches the later. */
  lemma WalkReach(adj: Adjacency, p: seq<Node>, i: nat, j: nat)
    requires IsWalk(adj, p) && i <= j < |p|
    ensures Reach(adj, p[i], p[j])
  {
    var q := p[i..j + 1];
    forall k | 0 <= k < |q| - 1
      ensures Hop(adj, q, k)
    {
      assert Hop(adj, p, i + k);
    }
    assert Joins(adj, q, p[i], p[j]);
  }
}
