/** Strongly connected components by depth-first search with low-links. */
module CycleDetector {
  import opened Common
  import opened Digraph
  import opened SearchInvariant
  import opened Components
  import opened DepthFirst

  datatype EdgeRecord = EdgeRecord(from: Node, to: Node)

  // ----- The graph that is searched -----

  /** The targets that `u` keeps, in the order in which the edges are listed. */
  ghost function Targets(edges: seq<EdgeRecord>, known: set<Node>, u: Node): seq<Node> {
    if edges == [] then []
    else
      var e := edges[|edges| - 1];
      var before := Targets(edges[..|edges| - 1], known, u);
      if e.from == u && e.to in known then before + [e.to] else before
  }

  ghost function AdjacencyOf(nodes: seq<Node>, edges: seq<EdgeRecord>): Adjacency {
    map u | u in nodes :: Targets(edges, (set n | n in nodes), u)
  }

  lemma {:induction false} TargetsAreKept(edges: seq<EdgeRecord>, known: set<Node>, u: Node, v: Node)
    ensures v in Targets(edges, known, u) <==> v in known && EdgeRecord(u, v) in edges
  {
    if edges != [] {
      TargetsAreKept(edges[..|edges| - 1], known, u, v);
      assert edges == edges[..|edges| - 1] + [edges[|edges| - 1]];
    }
  }

  /** The targets of `u` are those of its edges to known nodes, each as often and in the order in which it is listed. */
  lemma {:induction false} TargetsAreListed(edges: seq<EdgeRecord>, known: set<Node>, u: Node) returns (at: seq<nat>)
    ensures |at| == |Targets(edges, known, u)|
    ensures forall i :: 0 <= i < |at| ==>
                          && at[i] < |edges| && edges[at[i]].to in known
                          && edges[at[i]] == EdgeRecord(u, Targets(edges, known, u)[i])
    ensures forall i, j :: 0 <= i < j < |at| ==> at[i] < at[j]
    ensures forall k :: 0 <= k < |edges| && edges[k].from == u && edges[k].to in known ==> k in at
  {
    if edges == [] {
      at := [];
    } else {
      var n := |edges| - 1;
      at := TargetsAreListed(edges[..n], known, u);
      if edges[n].from == u && edges[n].to in known {
        at := at + [n];
      }
    }
  }

  /** The searched graph has exactly the listed edges between known nodes. */
  lemma EdgesOfAdjacency(nodes: seq<Node>, edges: seq<EdgeRecord>)
    ensures forall u, v :: Edge(AdjacencyOf(nodes, edges), u, v) <==>
                           u in nodes && v in nodes && EdgeRecord(u, v) in edges
    ensures Closed(AdjacencyOf(nodes, edges))
  {
    forall u, v
      ensures Edge(AdjacencyOf(nodes, edges), u, v) <==>
              u in nodes && v in nodes && EdgeRecord(u, v) in edges
    {
      TargetsAreKept(edges, (set n | n in nodes), u, v);
    }
  }

  lemma NoEdges(nodes: seq<Node>)
    ensures AdjacencyOf(nodes, []) == map u | u in nodes :: []
  {
  }

  lemma AddEdge(nodes: seq<Node>, edges: seq<EdgeRecord>, e: EdgeRecord)
    ensures var adj := AdjacencyOf(nodes, edges);
            AdjacencyOf(nodes, edges + [e]) ==
            if e.from in adj && e.to in adj then adj[e.from := adj[e.from] + [e.to]] else adj
  {
    assert (edges + [e])[..|edges|] == edges;
  }

  method BuildAdjacency(nodes: seq<Node>, edges: seq<EdgeRecord>) returns (adj: Adjacency)
    ensures adj == AdjacencyOf(nodes, edges)
  {
    hide AdjacencyOf;
    adj := map[];
    for i := 0 to |nodes|
      invariant adj == map u | u in nodes[..i] :: []
    {
      adj := adj[nodes[i] := []];
    }
    assert nodes[..|nodes|] == nodes;
    NoEdges(nodes);
    for i := 0 to |edges|
      invariant adj == AdjacencyOf(nodes, edges[..i])
    {
      AddEdge(nodes, edges[..i], edges[i]);
      assert edges[..i + 1] == edges[..i] + [edges[i]];
      if edges[i].from in adj && edges[i].to in adj {
        adj := adj[edges[i].from := adj[edges[i].from] + [edges[i].to]];
      }
    }
    assert edges[..|edges|] == edges;
  }

  // ----- The search -----

  lemma ReversedAppend(s: seq<Node>, w: Node)
    ensures Reversed<Node>([]) == [] && Reversed(s + [w]) == [w] + Reversed(s)
  {
    assert (s + [w])[..|s|] == s;
  }

  lemma ReversedSameMembers(s: seq<Node>)
    ensures forall x :: x in s <==> x in Reversed(s)
  {
    assert forall i :: 0 <= i < |s| ==> s[i] == Reversed(s)[|s| - 1 - i];
  }

  lemma OrderHoldsVisited(adj: Adjacency, w: View)
    requires Good(adj, w)
    ensures forall x :: x in w.order <==> x in w.s.indices
  {
  }

  lemma ScanOrderHoldsVisited(adj: Adjacency, w0: View, w: View, v: Node, done: nat)
    requires InScan(adj, w0, w, v, done)
    ensures forall x :: x in w.order <==> x in w.s.indices
  {
    OrderHoldsVisited(adj, w);
  }

  class Tarjan {
    const adj: Adjacency
    var index: nat
    var stack: seq<Node>
    var onStack: set<Node>
    var indices: map<Node, nat>
    var lowlinks: map<Node, nat>
    var sccs: seq<seq<Node>>

    ghost var open: set<Node>
    ghost var comps: seq<seq<Node>>
    ghost var comp: map<Node, nat>
    ghost var order: seq<Node>
    ghost var scans: multiset<(Node, nat)>   // adjacency entries looked at

    ghost function Now(): View
      reads this
    {
      View(Snapshot(stack, indices, open, comps, comp), lowlinks, order, scans)
    }

    /** The fields that repeat what others say agree with them. */
    ghost predicate Synced()
      reads `onStack, `stack, `index, `order, `sccs, `comps
    {
      && (forall x :: x in onStack <==> x in stack)
      && index == |order|
      && sccs == Reported(comps)
    }

    constructor (adj: Adjacency)
      requires Closed(adj)
      ensures Synced() && Good(adj, Now()) && this.adj == adj
      ensures Now() == View(Snapshot([], map[], {}, [], map[]), map[], [], multiset{})
    {
      this.adj := adj;
      index, stack, onStack, indices, lowlinks, sccs := 0, [], {}, map[], map[], [];
      open, comps, comp, order, scans := {}, [], map[], [], multiset{};
    }

    /** Number `v` and push it. */
    method Enter(v: Node)
      modifies this
      ensures indices == old(indices)[v := old(index)] && lowlinks == old(lowlinks)[v := old(index)]
      ensures index == old(index) + 1 && stack == old(stack) + [v] && onStack == old(onStack) + {v}
      ensures order == old(order) + [v] && open == old(open) + {v}
      ensures unchanged(`sccs) && unchanged(`comps) && unchanged(`comp) && unchanged(`scans)
    {
      indices := indices[v := index];
      lowlinks := lowlinks[v := index];
      index := index + 1;
      stack := stack + [v];
      onStack := onStack + {v};
      order := order + [v];
      open := open + {v};
    }

    /** Pop the stack down to `v`; what was popped is returned in popping order. */
    method PopTo(v: Node, ghost base: nat) returns (scc: seq<Node>)
      requires base < |stack| && stack[base] == v
      requires forall i :: base < i < |stack| ==> stack[i] != v
      modifies `stack, `onStack
      ensures stack == old(stack)[..base] && Reversed(scc) == old(stack)[base..]
      ensures forall x :: x in onStack <==> x in old(onStack) && x !in old(stack)[base..]
    {
      hide Reversed;
      ghost var full, top, flags := stack, stack[base..], onStack;
      scc := [];
      ReversedAppend([], v);
      var w := v;
      while true
        invariant base < |stack| && stack + Reversed(scc) == full
        invariant forall x :: x in onStack <==> x in flags && x !in scc
        decreases |stack|
      {
        w := stack[|stack| - 1];
        assert w == full[|stack| - 1];
        stack := stack[..|stack| - 1];
        onStack := onStack - {w};
        ReversedAppend(scc, w);
        scc := scc + [w];
        if w == v { break; }
      }
      assert stack == full[..base] && Reversed(scc) == top;
      ReversedSameMembers(scc);
    }

    /** The popped nodes are a component; it is reported, in stack order, if it has more than one node. */
    method PopComponent(v: Node, ghost base: nat)
      requires Synced() && base < |stack| && stack[base] == v
      requires forall x :: x in stack[..base] ==> x !in stack[base..]
      requires forall i :: base < i < |stack| ==> stack[i] != v
      modifies `stack, `onStack, `sccs, `comps, `comp, `open
      ensures Synced() && stack == old(stack)[..base]
      ensures comps == old(comps) + [old(stack)[base..]]
      ensures comp == Numbered(old(comp), old(stack)[base..], |old(comps)|) && open == old(open) - {v}
    {
      ghost var top := stack[base..];
      assert stack == stack[..base] + top;
      var scc := PopTo(v, base);
      if |scc| > 1 {
        scc := Reversed(scc);
        sccs := sccs + [scc];
      }
      comp := Numbered(comp, top, |comps|);
      comps := comps + [top];
      open := open - {v};
      assert comps[..|comps| - 1] == old(comps);
    }

    lemma FlagsAgree()
      requires Synced()
      ensures forall x :: x in onStack <==> x in stack
    {
    }

    method EnterSynced(v: Node)
      requires Synced()
      modifies this
      ensures Synced() && Now() == Begun(old(Now()), v)
    {
      Enter(v);
    }

    /** Explores `v`: all that depth-first search discovers from there is visited, in its order. */
    method StrongConnect(v: Node)
      requires Synced() && Good(adj, Now()) && v in adj && v !in indices
      requires forall g :: g in open ==> Reach(adj, g, v)
      modifies this
      ensures Synced() && After(adj, old(Now()), Now(), v)
      ensures order == Visit(adj, old(order), v)
      decreases adj.Keys - indices.Keys, 0
    {
      hide Good, InScan, After, Synced, Reach, Visit, VisitAll;
      ghost var w0 := Now();
      BeginScan(adj, w0, v);
      OrderHoldsVisited(adj, w0);
      VisitNew(adj, order, v);
      EnterSynced(v);
      AtNode(adj, w0, Now(), v, 0);
      VisitNone(adj, order);
      for i := 0 to |adj[v]|
        invariant Synced() && InScan(adj, w0, Now(), v, i)
        invariant order == VisitAll(adj, w0.order + [v], adj[v][..i])
      {
        AtNode(adj, w0, Now(), v, i);
        VisitOneMore(adj, w0.order + [v], adj[v], i);
        FollowEdge(v, i, w0);
      }
      assert adj[v][..|adj[v]|] == adj[v];
      Leave(v, w0);
    }

    /** One turn of the loop over the edges of `v`. */
    method FollowEdge(v: Node, i: nat, ghost w0: View)
      requires Synced() && InScan(adj, w0, Now(), v, i) && v in adj && i < |adj[v]|
      modifies this
      ensures Synced() && InScan(adj, w0, Now(), v, i + 1)
      ensures order == Visit(adj, old(order), adj[v][i])
      decreases adj.Keys - indices.Keys, 1
    {
      hide Good, InScan, After, Synced, Reach, Visit, VisitAll;
      ghost var w1 := Now();
      AtNode(adj, w0, w1, v, i);
      var w := adj[v][i];
      scans := scans + multiset{(v, i)};
      if w !in indices {
        LookedIsGood(adj, w0, w1, v, i);
        OpenReachesTarget(adj, w0, w1, v, i);
        StrongConnect(w);
        ghost var w2 := Now();
        FollowTree(adj, w0, w1, w2, v, i);
        lowlinks := lowlinks[v := Min(lowlinks[v], lowlinks[w])];
        assert Now() == Taken(w2, v, w);
      } else {
        FollowSeen(adj, w0, w1, v, i);
        FlagsAgree();
        ScanOrderHoldsVisited(adj, w0, w1, v, i);
        VisitSeen(adj, order, w);
        if w in onStack {
          lowlinks := lowlinks[v := Min(lowlinks[v], indices[w])];
        }
      }
    }

    method Leave(v: Node, ghost w0: View)
      requires v in adj && Synced() && InScan(adj, w0, Now(), v, |adj[v]|)
      modifies this
      ensures Synced() && After(adj, w0, Now(), v) && order == old(order)
    {
      hide Good, InScan, After, Reported, Reach;
      AtNode(adj, w0, Now(), v, |adj[v]|);
      if lowlinks[v] == indices[v] {
        EndAtRoot(adj, w0, Now(), v);
        PopComponent(v, |w0.s.stack|);
        assert order == old(order) && scans == old(scans) && lowlinks == old(lowlinks) && indices == old(indices);
        assert Now() == old(Now()).(s := Popped(old(Now()).s, |w0.s.stack|));
      } else {
        EndInside(adj, w0, Now(), v);
        open := w0.s.open;
      }
    }
  }

  // ----- The result -----

  lemma FinishedReach(adj: Adjacency, comps: seq<seq<Node>>, comp: map<Node, nat>, u: Node, v: Node)
    requires Finished(adj, comps, comp) && u in comp && Reach(adj, u, v)
    ensures v in comp && comp[v] <= comp[u]
  {
    var below := set x | x in comp && comp[x] <= comp[u];
    ReachStays(adj, u, v, below);
  }

  lemma FinishedComponent(adj: Adjacency, comps: seq<seq<Node>>, comp: map<Node, nat>, indices: map<Node, nat>, i: nat)
    requires Finished(adj, comps, comp) && comp.Keys == adj.Keys && AllSorted(comps, indices) && i < |comps|
    ensures IsComponent(adj, comps[i])
  {
    var c := comps[i];
    forall a, b | 0 <= a < b < |c|
      ensures c[a] != c[b]
    {
      SortedPositions(c, indices, a, b);
    }
    forall x, y | x in c
      ensures x in adj && (y in c <==> Mutual(adj, x, y))
    {
      var a :| 0 <= a < |c| && comps[i][a] == x;
      if y in c {
        var b :| 0 <= b < |c| && comps[i][b] == y;
      }
      if Mutual(adj, x, y) {
        FinishedReach(adj, comps, comp, x, y);
        FinishedReach(adj, comps, comp, y, x);
      }
    }
  }

  lemma FinishedIsCondensation(adj: Adjacency, comps: seq<seq<Node>>, comp: map<Node, nat>, indices: map<Node, nat>)
    requires Finished(adj, comps, comp) && comp.Keys == adj.Keys && AllSorted(comps, indices)
    ensures IsCondensation(adj, comps)
  {
    forall i | 0 <= i < |comps|
      ensures IsComponent(adj, comps[i])
    {
      FinishedComponent(adj, comps, comp, indices, i);
    }
    forall i, j, x, y | 0 <= i < j < |comps| && x in comps[i] && y in comps[j]
      ensures !Reach(adj, x, y)
    {
      var a :| 0 <= a < |comps[i]| && comps[i][a] == x;
      var b :| 0 <= b < |comps[j]| && comps[j][b] == y;
      if Reach(adj, x, y) {
        FinishedReach(adj, comps, comp, x, y);
      }
    }
  }

  /** What the run says about itself: each node entered once, each kept edge looked at once. */
  ghost predicate WorkedOnce(adj: Adjacency, comps: seq<seq<Node>>, order: seq<Node>, scans: multiset<(Node, nat)>) {
    && Distinct(order)
    && (forall x :: x in order <==> x in adj)
    && (forall p: (Node, nat) :: scans[p] == if p.0 in adj && p.1 < |adj[p.0]| then 1 else 0)
    && (forall i :: 0 <= i < |comps| ==> Subsequence(comps[i], order))
  }

  ghost predicate At(order: seq<Node>, positions: seq<nat>, c: seq<Node>, i: nat)
    requires i < |c| && |positions| == |c|
  {
    positions[i] < |order| && order[positions[i]] == c[i]
  }

  ghost predicate Subsequence(c: seq<Node>, order: seq<Node>) {
    exists positions: seq<nat> :: IsSubsequenceAt(c, order, positions)
  }

  ghost predicate IsSubsequenceAt(c: seq<Node>, order: seq<Node>, positions: seq<nat>) {
    && |positions| == |c|
    && (forall i :: 0 <= i < |c| ==> At(order, positions, c, i))
    && (forall i, j :: 0 <= i < j < |c| ==> positions[i] < positions[j])
  }

  lemma SortedIsSubsequence(c: seq<Node>, order: seq<Node>, indices: map<Node, nat>)
    requires Sorted(c, indices) && Enumerates(order, indices)
    ensures Subsequence(c, order)
  {
    var positions := seq(|c|, i requires 0 <= i < |c| => indices[c[i]]);
    forall i, j | 0 <= i < j < |c|
      ensures positions[i] < positions[j]
    {
      SortedPositions(c, indices, i, j);
    }
    assert IsSubsequenceAt(c, order, positions);
  }

  ghost predicate AllScanned(adj: Adjacency, indices: map<Node, nat>, scans: multiset<(Node, nat)>) {
    forall p: (Node, nat) :: scans[p] == if p.0 in indices && p.0 in adj && p.1 < |adj[p.0]| then 1 else 0
  }

  /** Between two top-level calls nothing is open, so nothing is on the stack. */
  ghost predicate AtRest(adj: Adjacency, w: View) {
    Good(adj, w) && w.s.open == {} && w.s.stack == [] && AllScanned(adj, w.s.indices, w.scans)
  }

  lemma SomethingOpen(adj: Adjacency, s: Snapshot, y: Node)
    requires Inv(adj, s) && y in s.stack
    ensures s.open != {}
  {
    assert HasAnchor(adj, s, y);
    var g :| Anchored(adj, s, y, g);
  }

  lemma NothingOpen(adj: Adjacency, s: Snapshot)
    requires Inv(adj, s) && s.open == {}
    ensures s.stack == []
  {
    if s.stack != [] {
      SomethingOpen(adj, s, s.stack[0]);
    }
  }

  lemma RestAgain(adj: Adjacency, w: View, w': View, v: Node)
    requires AtRest(adj, w) && After(adj, w, w', v)
    ensures AtRest(adj, w') && v in w'.s.indices && w.s.indices.Keys <= w'.s.indices.Keys
  {
    NothingOpen(adj, w'.s);
    hide Inv, Books, Closed;
    forall p: (Node, nat)
      ensures w'.scans[p] == if p.0 in w'.s.indices && p.0 in adj && p.1 < |adj[p.0]| then 1 else 0
    {
    }
  }

  lemma RestAtEnd(adj: Adjacency, w: View)
    requires AtRest(adj, w) && w.s.indices.Keys == adj.Keys
    ensures IsCondensation(adj, w.s.comps) && WorkedOnce(adj, w.s.comps, w.order, w.scans)
  {
    assert w.s.comp.Keys == adj.Keys;
    FinishedIsCondensation(adj, w.s.comps, w.s.comp, w.s.indices);
    forall i | 0 <= i < |w.s.comps|
      ensures Subsequence(w.s.comps[i], w.order)
    {
      SortedIsSubsequence(w.s.comps[i], w.order, w.s.indices);
    }
    OrderIsDistinct(w.order, w.s.indices);
  }

  lemma OrderIsDistinct(order: seq<Node>, indices: map<Node, nat>)
    requires Enumerates(order, indices)
    ensures Distinct(order) && forall x :: x in order <==> x in indices
  {
  }

  lemma RestIsGood(adj: Adjacency, w: View)
    requires AtRest(adj, w)
    ensures Good(adj, w) && w.s.open == {}
    ensures forall x :: x in w.order <==> x in w.s.indices
  {
    OrderHoldsVisited(adj, w);
  }

  /** The loop over the nodes: what is not yet visited is explored. */
  method SearchAll(adj: Adjacency, nodes: seq<Node>) returns (t: Tarjan)
    requires Closed(adj) && forall x :: x in nodes ==> x in adj
    ensures fresh(t) && t.Synced() && AtRest(adj, t.Now())
    ensures forall x :: x in nodes ==> x in t.indices
    ensures t.order == VisitAll(adj, [], nodes)
  {
    hide Good, After, Closed, Visit, VisitAll;
    t := new Tarjan(adj);
    assert AtRest(adj, t.Now());
    VisitNone(adj, []);
    for i := 0 to |nodes|
      invariant t.adj == adj && t.Synced() && fresh(t)
      invariant AtRest(adj, t.Now())
      invariant forall k :: 0 <= k < i ==> nodes[k] in t.indices
      invariant t.order == VisitAll(adj, [], nodes[..i])
    {
      VisitOneMore(adj, [], nodes, i);
      RestIsGood(adj, t.Now());
      if nodes[i] !in t.indices {
        ghost var w := t.Now();
        t.StrongConnect(nodes[i]);
        RestAgain(adj, w, t.Now(), nodes[i]);
      } else {
        VisitSeen(adj, t.order, nodes[i]);
      }
    }
    assert nodes[..|nodes|] == nodes;
  }

  /** The reported arrays, with the whole condensation, the visiting order and the scanned entries as evidence. */
  method DetectCycles(nodes: seq<Node>, edges: seq<EdgeRecord>)
    returns (cycles: seq<seq<Node>>,
             ghost comps: seq<seq<Node>>, ghost order: seq<Node>, ghost scans: multiset<(Node, nat)>)
    ensures ListsCycles(AdjacencyOf(nodes, edges), cycles)
    ensures cycles == Reported(comps) && IsCondensation(AdjacencyOf(nodes, edges), comps)
    ensures WorkedOnce(AdjacencyOf(nodes, edges), comps, order, scans)
    ensures order == VisitAll(AdjacencyOf(nodes, edges), [], nodes)
  {
    var adj := BuildAdjacency(nodes, edges);
    EdgesOfAdjacency(nodes, edges);
    assert adj.Keys == set x | x in nodes;
    hide *;
    var t := SearchAll(adj, nodes);
    VisitedAreNodes(adj, t.Now());
    RestAtEnd(adj, t.Now());
    SyncedReports(t);
    cycles, comps, order, scans := t.sccs, t.comps, t.order, t.scans;
    ReportedListsCycles(adj, comps);
  }

  lemma SyncedReports(t: Tarjan)
    requires t.Synced()
    ensures t.sccs == Reported(t.comps)
  {
  }

  lemma VisitedAreNodes(adj: Adjacency, w: View)
    requires AtRest(adj, w)
    ensures w.s.indices.Keys <= adj.Keys
  {
  }
}
