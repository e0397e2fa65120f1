/** The invariant of the depth-first search for strongly connected components, and how each of its moves keeps it. */
module SearchInvariant {
  import opened Digraph

  // ----- Finished components -----

  /** Components found so far: `comp` numbers the finished nodes by component. */
  ghost predicate Finished(adj: Adjacency, comps: seq<seq<Node>>, comp: map<Node, nat>) {
    && (forall x :: x in comp ==> comp[x] < |comps| && x in comps[comp[x]])
    && (forall i, a :: 0 <= i < |comps| && 0 <= a < |comps[i]| ==> comps[i][a] in comp && comp[comps[i][a]] == i)
    && (forall x, y {:trigger Edge(adj, x, y)} :: x in comp && Edge(adj, x, y) ==> y in comp && comp[y] <= comp[x])
    && (forall x, y {:trigger Reach(adj, x, y)} ::
         x in comp && y in comp && comp[x] == comp[y] ==> Reach(adj, x, y))
  }

  /** The search state the proofs speak about. */
  datatype Snapshot = Snapshot(
    stack: seq<Node>,
    indices: map<Node, nat>,
    open: set<Node>,            // entered and not yet left
    comps: seq<seq<Node>>,      // finished components, singletons included
    comp: map<Node, nat>)       // finished node -> number of its component

  ghost predicate Before(c: seq<Node>, indices: map<Node, nat>, i: nat, j: nat)
    requires i < |c| && j < |c| && c[i] in indices && c[j] in indices
  {
    indices[c[i]] < indices[c[j]]
  }

  /** The members of `c` are listed by strictly increasing index. */
  ghost predicate Sorted(c: seq<Node>, indices: map<Node, nat>) {
    && (forall i :: 0 <= i < |c| ==> c[i] in indices)
    && (forall i, j {:trigger Before(c, indices, i, j)} :: 0 <= i < j < |c| ==> Before(c, indices, i, j))
  }

  lemma SortedPush(c: seq<Node>, indices: map<Node, nat>, v: Node, index: nat)
    requires Sorted(c, indices) && v !in indices
    requires forall x :: x in indices ==> indices[x] < index
    ensures Sorted(c + [v], indices[v := index])
  {
    var c', indices' := c + [v], indices[v := index];
    forall i, j | 0 <= i < j < |c'|
      ensures Before(c', indices', i, j)
    {
      if j < |c| {
        assert Before(c, indices, i, j);
      }
    }
  }

  lemma SortedExtend(c: seq<Node>, indices: map<Node, nat>, v: Node, index: nat)
    requires Sorted(c, indices) && v !in indices
    ensures Sorted(c, indices[v := index])
  {
    var indices' := indices[v := index];
    forall i, j | 0 <= i < j < |c|
      ensures Before(c, indices', i, j)
    {
      assert Before(c, indices, i, j);
    }
  }

  lemma SortedSlice(c: seq<Node>, indices: map<Node, nat>, lo: nat, hi: nat)
    requires Sorted(c, indices) && lo <= hi <= |c|
    ensures Sorted(c[lo..hi], indices)
  {
    forall i, j | 0 <= i < j < hi - lo
      ensures Before(c[lo..hi], indices, i, j)
    {
      assert Before(c, indices, lo + i, lo + j);
    }
  }

  /** Positions in a sorted sequence compare like indices. */
  lemma SortedPositions(c: seq<Node>, indices: map<Node, nat>, i: nat, j: nat)
    requires Sorted(c, indices) && i < |c| && j < |c|
    ensures i < j <==> indices[c[i]] < indices[c[j]]
    ensures i == j <==> c[i] == c[j]
  {
    if i < j {
      assert Before(c, indices, i, j);
    } else if j < i {
      assert Before(c, indices, j, i);
    }
  }

  ghost predicate Anchored(adj: Adjacency, s: Snapshot, y: Node, g: Node)
    requires Sorted(s.stack, s.indices) && y in s.stack
  {
    g in s.open && g in s.stack && s.indices[g] <= s.indices[y] && Reach(adj, y, g)
  }

  ghost predicate HasAnchor(adj: Adjacency, s: Snapshot, y: Node)
    requires Sorted(s.stack, s.indices) && y in s.stack
  {
    exists g :: Anchored(adj, s, y, g)
  }

  /** The stack is sorted by index and holds, with the finished nodes, exactly the visited ones. */
  ghost predicate Layout(adj: Adjacency, s: Snapshot) {
    && s.indices.Keys <= adj.Keys
    && Sorted(s.stack, s.indices)
    && (forall x :: x in s.stack ==> x in s.indices && x !in s.comp)
    && (forall x :: x in s.comp ==> x in s.indices)
    && (forall x :: x in s.indices ==> x in s.stack || x in s.comp)
    && (forall x :: x in s.open ==> x in s.stack)
  }

  /** Each stack node reaches every later one. */
  ghost predicate Chained(adj: Adjacency, stack: seq<Node>) {
    forall i, j {:trigger Reach(adj, stack[i], stack[j])} :: 0 <= i <= j < |stack| ==> Reach(adj, stack[i], stack[j])
  }

  /** Each stack node reaches an open one that is at least as old. */
  ghost predicate AllAnchored(adj: Adjacency, s: Snapshot)
    requires Sorted(s.stack, s.indices)
  {
    forall y {:trigger HasAnchor(adj, s, y)} :: y in s.stack ==> HasAnchor(adj, s, y)
  }

  /** All edges of a visited node that is no longer open have been followed. */
  ghost predicate EdgesSeen(adj: Adjacency, indices: map<Node, nat>, open: set<Node>) {
    forall x, y {:trigger Edge(adj, x, y)} :: x in indices && x !in open && Edge(adj, x, y) ==> y in indices
  }

  ghost predicate Inv(adj: Adjacency, s: Snapshot) {
    && Layout(adj, s)
    && Chained(adj, s.stack)
    && AllAnchored(adj, s)
    && EdgesSeen(adj, s.indices, s.open)
    && Finished(adj, s.comps, s.comp)
  }

  // ----- The three moves of the search -----

  ghost function Entered(s: Snapshot, v: Node, index: nat): Snapshot {
    Snapshot(s.stack + [v], s.indices[v := index], s.open + {v}, s.comps, s.comp)
  }

  lemma EnterKeepsAnchor(adj: Adjacency, s: Snapshot, v: Node, index: nat, y: Node)
    requires Inv(adj, s) && v !in s.indices && y in s.stack + [v]
    requires Sorted(s.stack + [v], s.indices[v := index])
    ensures HasAnchor(adj, Entered(s, v, index), y)
  {
    var t := Entered(s, v, index);
    if y in s.stack {
      assert HasAnchor(adj, s, y);
      var g :| Anchored(adj, s, y, g);
      assert Anchored(adj, t, y, g);
    } else {
      ReachSelf(adj, v);
      assert Anchored(adj, t, y, v);
    }
  }

  lemma EnterKeepsChained(adj: Adjacency, s: Snapshot, v: Node)
    requires Inv(adj, s)
    requires forall g :: g in s.open ==> Reach(adj, g, v)
    ensures Chained(adj, s.stack + [v])
  {
    ReachSelf(adj, v);
    forall i, j | 0 <= i <= j < |s.stack + [v]|
      ensures Reach(adj, (s.stack + [v])[i], (s.stack + [v])[j])
    {
      if j < |s.stack| {
        assert Reach(adj, s.stack[i], s.stack[j]);
      } else if i < |s.stack| {
        assert HasAnchor(adj, s, s.stack[i]);
        var g :| Anchored(adj, s, s.stack[i], g);
        ReachTrans(adj, s.stack[i], g, v);
      }
    }
  }

  /** Entering an unvisited node that every open node reaches. */
  lemma EnterKeepsInv(adj: Adjacency, s: Snapshot, v: Node, index: nat)
    requires Inv(adj, s) && v in adj && v !in s.indices
    requires forall x :: x in s.indices ==> s.indices[x] < index
    requires forall g :: g in s.open ==> Reach(adj, g, v)
    ensures Inv(adj, Entered(s, v, index))
  {
    var t := Entered(s, v, index);
    SortedPush(s.stack, s.indices, v, index);
    EnterKeepsChained(adj, s, v);
    forall y {:trigger HasAnchor(adj, t, y)} | y in t.stack
      ensures HasAnchor(adj, t, y)
    {
      EnterKeepsAnchor(adj, s, v, index, y);
    }
  }

  lemma LeaveKeepsAnchor(adj: Adjacency, s: Snapshot, v: Node, u: Node, y: Node)
    requires Inv(adj, s) && v in s.open && y in s.stack
    requires u in s.stack && s.indices[u] < s.indices[v] && Reach(adj, v, u)
    ensures HasAnchor(adj, s.(open := s.open - {v}), y)
  {
    var t := s.(open := s.open - {v});
    assert HasAnchor(adj, s, y);
    var g :| Anchored(adj, s, y, g);
    if g == v {
      assert HasAnchor(adj, s, u);
      var g' :| Anchored(adj, s, u, g');
      ReachTrans(adj, y, v, u);
      ReachTrans(adj, y, u, g');
      assert Anchored(adj, t, y, g');
    } else {
      assert Anchored(adj, t, y, g);
    }
  }

  /** Leaving a node that reaches an older stack node: it stays on the stack. */
  lemma LeaveKeepsInv(adj: Adjacency, s: Snapshot, v: Node, u: Node)
    requires Inv(adj, s) && v in s.open
    requires forall y :: Edge(adj, v, y) ==> y in s.indices
    requires u in s.stack && s.indices[u] < s.indices[v] && Reach(adj, v, u)
    ensures Inv(adj, s.(open := s.open - {v}))
  {
    var t := s.(open := s.open - {v});
    forall y {:trigger HasAnchor(adj, t, y)} | y in s.stack
      ensures HasAnchor(adj, t, y)
    {
      LeaveKeepsAnchor(adj, s, v, u, y);
    }
  }

  /** The condition under which a root is popped: no edge leads below it, all nodes above are left. */
  ghost predicate Isolated(adj: Adjacency, s: Snapshot, base: nat) {
    && base < |s.stack|
    && s.stack[base] in s.open
    && (forall i, z {:trigger Edge(adj, s.stack[i], z)} ::
          base <= i < |s.stack| && Edge(adj, s.stack[i], z) ==> z in s.indices && z !in s.stack[..base])
    && (forall i :: base < i < |s.stack| ==> s.stack[i] !in s.open)
  }

  /** The part of the stack above an isolated root: nothing in it reaches a node below. */
  lemma AboveRootIsClosed(adj: Adjacency, s: Snapshot, base: nat, x: Node, y: Node)
    requires Inv(adj, s) && Isolated(adj, s, base)
    requires x in s.stack[base..] && Reach(adj, x, y)
    ensures y in s.stack[base..] || y in s.comp
  {
    var inside := (set z | z in s.stack[base..]) + s.comp.Keys;
    forall a, b | a in inside && Edge(adj, a, b)
      ensures b in inside
    {
      if a in s.stack[base..] {
        assert s.stack == s.stack[..base] + s.stack[base..];
      }
    }
    ReachStays(adj, x, y, inside);
  }

  /** Every node above an isolated root and the root reach each other. */
  lemma AboveRootIsMutual(adj: Adjacency, s: Snapshot, base: nat, x: Node)
    requires Inv(adj, s) && Isolated(adj, s, base) && x in s.stack[base..]
    ensures Mutual(adj, x, s.stack[base])
  {
    assert HasAnchor(adj, s, x);
    var g :| Anchored(adj, s, x, g);
    AboveRootIsClosed(adj, s, base, x, g);
    assert g == s.stack[base];
  }

  ghost function Numbered(comp: map<Node, nat>, top: seq<Node>, n: nat): map<Node, nat> {
    map x | x in comp.Keys + (set z | z in top) :: if x in comp then comp[x] else n
  }

  ghost function Popped(s: Snapshot, base: nat): Snapshot
    requires base < |s.stack|
  {
    var top := s.stack[base..];
    Snapshot(s.stack[..base], s.indices, s.open - {s.stack[base]}, s.comps + [top],
             Numbered(s.comp, top, |s.comps|))
  }

  lemma TopIsStrong(adj: Adjacency, s: Snapshot, base: nat, x: Node, y: Node)
    requires Inv(adj, s) && Isolated(adj, s, base)
    requires x in s.stack[base..] && y in s.stack[base..]
    ensures Reach(adj, x, y)
  {
    AboveRootIsMutual(adj, s, base, x);
    AboveRootIsMutual(adj, s, base, y);
    ReachTrans(adj, x, s.stack[base], y);
  }

  lemma TopEdges(adj: Adjacency, s: Snapshot, base: nat, x: Node, y: Node)
    requires Inv(adj, s) && Isolated(adj, s, base)
    requires x in s.stack[base..] && Edge(adj, x, y)
    ensures y in s.stack[base..] || y in s.comp
  {
    ReachEdge(adj, x, y);
    AboveRootIsClosed(adj, s, base, x, y);
  }

  /** Adding one more component, closed and strongly connected, keeps the list of components right. */
  lemma AddKeepsFinished(adj: Adjacency, comps: seq<seq<Node>>, comp: map<Node, nat>, top: seq<Node>)
    requires Finished(adj, comps, comp)
    requires forall x :: x in top ==> x !in comp
    requires forall x, y :: x in top && Edge(adj, x, y) ==> y in top || y in comp
    requires forall x, y :: x in top && y in top ==> Reach(adj, x, y)
    ensures Finished(adj, comps + [top], Numbered(comp, top, |comps|))
  {
    var cs, c := comps + [top], Numbered(comp, top, |comps|);
    forall i, a | 0 <= i < |cs| && 0 <= a < |cs[i]|
      ensures cs[i][a] in c && c[cs[i][a]] == i
    {
      if i < |comps| {
        assert comps[i][a] in comp;
      }
    }
    forall x | x in c
      ensures c[x] < |cs| && x in cs[c[x]]
    {
    }
  }

  lemma SortedParts(stack: seq<Node>, indices: map<Node, nat>, base: nat, x: Node)
    requires Sorted(stack, indices) && base <= |stack| && x in stack[..base]
    ensures x !in stack[base..]
  {
    var i :| 0 <= i < base && stack[i] == x;
    forall j | base <= j < |stack|
      ensures stack[j] != x
    {
      assert Before(stack, indices, i, j);
    }
  }

  lemma OpenBelow(s: Snapshot, base: nat, x: Node)
    requires base < |s.stack| && x in s.stack && x in s.open && x != s.stack[base]
    requires forall i :: base < i < |s.stack| ==> s.stack[i] !in s.open
    ensures x in s.stack[..base]
  {
    var i :| 0 <= i < |s.stack| && s.stack[i] == x;
    assert i < base;
    assert s.stack[..base][i] == x;
  }

  lemma PopMembership(adj: Adjacency, s: Snapshot, base: nat, x: Node)
    requires Layout(adj, s) && base < |s.stack|
    requires forall i :: base < i < |s.stack| ==> s.stack[i] !in s.open
    ensures x in s.stack[..base] ==> x in s.indices && x !in Popped(s, base).comp
    ensures x in s.indices ==> x in s.stack[..base] || x in Popped(s, base).comp
    ensures x in Popped(s, base).comp ==> x in s.indices
    ensures x in Popped(s, base).open ==> x in s.stack[..base]
  {
    assert s.stack == s.stack[..base] + s.stack[base..];
    if x in s.stack[..base] {
      SortedParts(s.stack, s.indices, base, x);
    }
    if x in Popped(s, base).open {
      OpenBelow(s, base, x);
    }
  }

  lemma PopKeepsLayout(adj: Adjacency, s: Snapshot, base: nat)
    requires Layout(adj, s) && base < |s.stack|
    requires forall i :: base < i < |s.stack| ==> s.stack[i] !in s.open
    ensures Layout(adj, Popped(s, base))
  {
    SortedSlice(s.stack, s.indices, 0, base);
    forall x
      ensures x in s.stack[..base] ==> x in s.indices && x !in Popped(s, base).comp
      ensures x in s.indices ==> x in s.stack[..base] || x in Popped(s, base).comp
      ensures x in Popped(s, base).comp ==> x in s.indices
      ensures x in Popped(s, base).open ==> x in s.stack[..base]
    {
      PopMembership(adj, s, base, x);
    }
  }

  lemma PopKeepsAnchor(adj: Adjacency, s: Snapshot, base: nat, y: Node)
    requires Inv(adj, s) && base < |s.stack| && y in s.stack[..base]
    requires Layout(adj, Popped(s, base))
    ensures HasAnchor(adj, Popped(s, base), y)
  {
    var i :| 0 <= i < base && s.stack[i] == y;
    assert HasAnchor(adj, s, y);
    var g :| Anchored(adj, s, y, g);
    var j :| 0 <= j < |s.stack| && s.stack[j] == g;
    SortedPositions(s.stack, s.indices, i, j);
    assert s.stack[..base][j] == g;
    assert Anchored(adj, Popped(s, base), y, g);
  }

  lemma PrefixIsChained(adj: Adjacency, stack: seq<Node>, n: nat)
    requires Chained(adj, stack) && n <= |stack|
    ensures Chained(adj, stack[..n])
  {
    forall i, j | 0 <= i <= j < n
      ensures Reach(adj, stack[..n][i], stack[..n][j])
    {
      assert Reach(adj, stack[i], stack[j]);
    }
  }

  /** Leaving an isolated root: it and everything above it become one finished component. */
  lemma PopKeepsInv(adj: Adjacency, s: Snapshot, base: nat)
    requires Inv(adj, s) && Isolated(adj, s, base)
    ensures Inv(adj, Popped(s, base))
  {
    var t, top := Popped(s, base), s.stack[base..];
    PopKeepsLayout(adj, s, base);
    PrefixIsChained(adj, s.stack, base);
    assert AllAnchored(adj, t) by {
      forall y {:trigger HasAnchor(adj, t, y)} | y in t.stack
        ensures HasAnchor(adj, t, y)
      {
        PopKeepsAnchor(adj, s, base, y);
      }
    }
    assert Finished(adj, t.comps, t.comp) by {
      forall x, y | x in top && y in top
        ensures Reach(adj, x, y)
      {
        TopIsStrong(adj, s, base, x, y);
      }
      forall x, y | x in top && Edge(adj, x, y)
        ensures y in top || y in s.comp
      {
        TopEdges(adj, s, base, x, y);
      }
      AddKeepsFinished(adj, s.comps, s.comp, top);
    }
  }

  // ----- Low-links -----

  function Min(a: nat, b: nat): nat {
    if a <= b then a else b
  }

  /** `low` is a lower bound for every edge from `stack[from..]` into `stack[..base]`. */
  ghost predicate LowBound(adj: Adjacency, stack: seq<Node>, indices: map<Node, nat>, from: nat, base: nat, low: nat)
    requires base <= |stack|
  {
    forall j, y {:trigger Edge(adj, stack[j], y)} ::
      from <= j < |stack| && y in stack[..base] && Edge(adj, stack[j], y) ==> y in indices && low <= indices[y]
  }

  ghost predicate LowWitness(adj: Adjacency, stack: seq<Node>, indices: map<Node, nat>, v: Node, low: nat) {
    exists u :: u in stack && u in indices && indices[u] == low && Reach(adj, v, u)
  }

  lemma LowBoundGrows(adj: Adjacency, before: seq<Node>, after: seq<Node>, indices: map<Node, nat>,
                      from: nat, base: nat, lowV: nat, lowW: nat, low: nat)
    requires base <= |before| && before <= after && low <= lowV && low <= lowW
    requires LowBound(adj, before, indices, from, base, lowV)
    requires LowBound(adj, after, indices, |before|, |before|, lowW)
    ensures LowBound(adj, after, indices, from, base, low)
  {
    assert after[..|before|] == before;
    assert after[..base] == before[..base];
    forall j, y | from <= j < |after| && y in after[..base] && Edge(adj, after[j], y)
      ensures y in indices && low <= indices[y]
    {
      if j < |before| {
        assert after[j] == before[j];
      }
    }
  }

  /** While the edges of `v = stack[base]` are followed; `done` of them have been. */
  ghost predicate Scanning(adj: Adjacency, s: Snapshot, lowlinks: map<Node, nat>, v: Node, base: nat, done: nat) {
    && base < |s.stack| && s.stack[base] == v && v in s.open
    && (forall i :: base < i < |s.stack| ==> s.stack[i] !in s.open)
    && v in adj && done <= |adj[v]| && v in lowlinks && v in s.indices
    && lowlinks[v] <= s.indices[v]
    && LowWitness(adj, s.stack, s.indices, v, lowlinks[v])
    && LowBound(adj, s.stack, s.indices, base + 1, base, lowlinks[v])
    && (forall j :: 0 <= j < done ==> adj[v][j] in s.indices)
    && (forall j :: 0 <= j < done && adj[v][j] in s.stack[..base] ==> lowlinks[v] <= s.indices[adj[v][j]])
  }

  /** Stack, indices and low-links only grow. */
  ghost predicate Extends(s: Snapshot, t: Snapshot, low: map<Node, nat>, low': map<Node, nat>) {
    && s.stack <= t.stack
    && (forall x :: x in s.indices ==> x in t.indices && t.indices[x] == s.indices[x])
    && (forall x :: x in s.indices && x in low ==> x in low' && low'[x] == low[x])
  }

  /** What exploring from `v` does to the state, low-links included. */
  ghost predicate Explored(adj: Adjacency, s: Snapshot, t: Snapshot, low: map<Node, nat>, low': map<Node, nat>,
                           v: Node) {
    && Extends(s, t, low, low') && s.open == t.open
    && v !in s.indices && v in t.indices && v in low'
    && (forall x :: x in s.indices ==> s.indices[x] < t.indices[v])
    && (if |t.stack| == |s.stack| then low'[v] == t.indices[v]
        else low'[v] < t.indices[v] && LowWitness(adj, t.stack, t.indices, v, low'[v]))
    && LowBound(adj, t.stack, t.indices, |s.stack|, |s.stack|, low'[v])
  }

  lemma ScanStart(adj: Adjacency, s: Snapshot, lowlinks: map<Node, nat>, v: Node, index: nat)
    requires Layout(adj, s) && v in adj && v !in s.indices
    ensures Scanning(adj, Entered(s, v, index), lowlinks[v := index], v, |s.stack|, 0)
  {
    var t := Entered(s, v, index);
    ReachSelf(adj, v);
    assert t.stack[|s.stack|] == v;
    assert LowWitness(adj, t.stack, t.indices, v, index);
  }

  lemma WitnessGrows(adj: Adjacency, s: Snapshot, t: Snapshot, low: map<Node, nat>, low': map<Node, nat>, v: Node,
                     w: Node)
    requires Explored(adj, s, t, low, low', w) && Edge(adj, v, w)
    requires v in low && v in s.indices && low[v] <= s.indices[v] && LowWitness(adj, s.stack, s.indices, v, low[v])
    ensures v in low' && LowWitness(adj, t.stack, t.indices, v, Min(low'[v], low'[w]))
  {
    if low[v] <= low'[w] {
      var u :| u in s.stack && u in s.indices && s.indices[u] == low[v] && Reach(adj, v, u);
      assert u in t.stack;
    } else {
      var u :| u in t.stack && u in t.indices && t.indices[u] == low'[w] && Reach(adj, w, u);
      ReachEdge(adj, v, w);
      ReachTrans(adj, v, w, u);
    }
  }

  /** Nothing above the scanned node is open, neither before nor after exploring a successor. */
  lemma StillClosedAbove(adj: Adjacency, s: Snapshot, t: Snapshot, base: nat)
    requires Layout(adj, s) && Layout(adj, t) && s.stack <= t.stack && s.open == t.open
    requires base < |s.stack|
    requires forall k :: base < k < |s.stack| ==> s.stack[k] !in s.open
    ensures forall i :: base < i < |t.stack| ==> t.stack[i] !in t.open
  {
    forall i | base < i < |t.stack|
      ensures t.stack[i] !in t.open
    {
      if t.stack[i] in s.stack {
        var k :| 0 <= k < |s.stack| && s.stack[k] == t.stack[i];
        assert t.stack[k] == t.stack[i];
        SortedPositions(t.stack, t.indices, k, i);
      }
    }
  }

  /** Following an edge to a node that was unvisited: its low-link is taken over. */
  lemma ScanTree(adj: Adjacency, s: Snapshot, t: Snapshot, low: map<Node, nat>, low': map<Node, nat>, v: Node,
                 base: nat, done: nat)
    requires Scanning(adj, s, low, v, base, done) && done < |adj[v]|
    requires forall x :: x in s.stack ==> x in s.indices
    requires forall i :: base < i < |t.stack| ==> t.stack[i] !in t.open
    requires Explored(adj, s, t, low, low', adj[v][done])
    ensures v in low' && Scanning(adj, t, low'[v := Min(low'[v], low'[adj[v][done]])], v, base, done + 1)
  {
    var w := adj[v][done];
    var m := Min(low'[v], low'[w]);
    assert t.stack[..base] == s.stack[..base];
    WitnessGrows(adj, s, t, low, low', v, w);
    assert LowBound(adj, t.stack, t.indices, base + 1, base, m) by {
      LowBoundGrows(adj, s.stack, t.stack, t.indices, base + 1, base, low[v], low'[w], m);
    }
    assert w !in s.stack[..base] by {
      assert forall x :: x in s.stack[..base] ==> x in s.stack;
    }
  }

  /** Following an edge to a visited node: its index counts if it is on the stack. */
  lemma ScanSeen(adj: Adjacency, s: Snapshot, low: map<Node, nat>, v: Node, base: nat, done: nat)
    requires Scanning(adj, s, low, v, base, done) && done < |adj[v]| && Inv(adj, s) && adj[v][done] in s.indices
    ensures adj[v][done] in s.stack ==>
              Scanning(adj, s, low[v := Min(low[v], s.indices[adj[v][done]])], v, base, done + 1)
    ensures adj[v][done] !in s.stack ==> Scanning(adj, s, low, v, base, done + 1)
  {
    var w := adj[v][done];
    ReachEdge(adj, v, w);
    if w in s.stack {
      var m := Min(low[v], s.indices[w]);
      assert LowWitness(adj, s.stack, s.indices, v, m);
      assert LowBound(adj, s.stack, s.indices, base + 1, base, m);
    } else {
      assert forall x :: x in s.stack[..base] ==> x in s.stack;
    }
  }

  /** All edges followed and the low-link equals the index: `v` is the root of a component. */
  lemma ScanEndRoot(adj: Adjacency, s: Snapshot, low: map<Node, nat>, v: Node, base: nat)
    requires Inv(adj, s) && v in adj && Scanning(adj, s, low, v, base, |adj[v]|) && low[v] == s.indices[v]
    ensures Isolated(adj, s, base)
  {
    forall i, z | base <= i < |s.stack| && Edge(adj, s.stack[i], z)
      ensures z in s.indices && z !in s.stack[..base]
    {
      if z in s.stack[..base] {
        var k :| 0 <= k < base && s.stack[k] == z;
        SortedPositions(s.stack, s.indices, k, base);
      }
    }
  }

  // ----- Counters -----

  /** `order` lists the visited nodes by index: each has been entered exactly once. */
  ghost predicate Enumerates(order: seq<Node>, indices: map<Node, nat>) {
    && (forall x :: x in indices ==> indices[x] < |order| && order[indices[x]] == x)
    && (forall i :: 0 <= i < |order| ==> order[i] in indices && indices[order[i]] == i)
  }

  ghost predicate AllSorted(comps: seq<seq<Node>>, indices: map<Node, nat>) {
    forall i :: 0 <= i < |comps| ==> |comps[i]| > 0 && Sorted(comps[i], indices)
  }

  /** What the counters say: each visited node was entered once, and components are listed by index. */
  ghost predicate Books(s: Snapshot, order: seq<Node>, scans: multiset<(Node, nat)>) {
    && Enumerates(order, s.indices)
    && AllSorted(s.comps, s.indices)
    && (forall p :: p in scans ==> p.0 in s.indices)
  }

  lemma EnterKeepsBooks(s: Snapshot, order: seq<Node>, scans: multiset<(Node, nat)>, v: Node)
    requires Books(s, order, scans) && v !in s.indices
    ensures Books(Entered(s, v, |order|), order + [v], scans)
  {
    forall i | 0 <= i < |s.comps|
      ensures Sorted(s.comps[i], s.indices[v := |order|])
    {
      SortedExtend(s.comps[i], s.indices, v, |order|);
    }
  }

  lemma PopKeepsBooks(s: Snapshot, order: seq<Node>, scans: multiset<(Node, nat)>, base: nat)
    requires Books(s, order, scans) && Sorted(s.stack, s.indices) && base < |s.stack|
    ensures Books(Popped(s, base), order, scans)
  {
    SortedSlice(s.stack, s.indices, base, |s.stack|);
    assert s.stack[base..|s.stack|] == s.stack[base..];
  }

  /** Between two states, each adjacency entry of a newly visited node is scanned once; of `v`, the first `done`. */
  ghost predicate Scanned(adj: Adjacency, before: map<Node, nat>, after: map<Node, nat>,
                          scans: multiset<(Node, nat)>, scans': multiset<(Node, nat)>, v: Node, done: nat) {
    forall p: (Node, nat) :: scans'[p] ==
                if p.0 in before || p.0 !in after || p.0 !in adj then scans[p]
                else if p.1 < (if p.0 == v then done else |adj[p.0]|) then 1 else 0
  }

  lemma ScannedNone(adj: Adjacency, before: map<Node, nat>, after: map<Node, nat>, scans: multiset<(Node, nat)>,
                    v: Node)
    requires forall p :: p in scans ==> p.0 in before
    requires after.Keys <= before.Keys + {v}
    ensures Scanned(adj, before, after, scans, scans, v, 0)
  {
    forall p: (Node, nat)
      ensures scans[p] == if p.0 in before || p.0 !in after || p.0 !in adj then scans[p]
                          else if p.1 < (if p.0 == v then 0 else |adj[p.0]|) then 1 else 0
    {
      assert p.0 !in before ==> p !in scans;
    }
  }

  lemma ScannedOne(adj: Adjacency, a: map<Node, nat>, b: map<Node, nat>,
                   x: multiset<(Node, nat)>, y: multiset<(Node, nat)>, v: Node, done: nat)
    requires v !in a && v in b && v in adj && Scanned(adj, a, b, x, y, v, done)
    ensures Scanned(adj, a, b, x, y + multiset{(v, done)}, v, done + 1)
  {
  }

  lemma ScannedTree(adj: Adjacency, a: map<Node, nat>, b: map<Node, nat>, c: map<Node, nat>,
                    x: multiset<(Node, nat)>, y: multiset<(Node, nat)>, z: multiset<(Node, nat)>,
                    v: Node, w: Node, done: nat)
    requires a.Keys <= b.Keys <= c.Keys && v in b && v in adj && v !in a && w in adj && w !in b && done < |adj[v]|
    requires forall p :: p in x ==> p.0 in a
    requires forall p :: p in y ==> p.0 in b
    requires Scanned(adj, a, b, x, y, v, done)
    requires Scanned(adj, b, c, y + multiset{(v, done)}, z, w, |adj[w]|)
    ensures Scanned(adj, a, c, x, z, v, done + 1)
  {
    forall p: (Node, nat)
      ensures z[p] ==
              if p.0 in a || p.0 !in c || p.0 !in adj then x[p]
              else if p.1 < (if p.0 == v then done + 1 else |adj[p.0]|) then 1 else 0
    {
      assert p.0 !in a ==> p !in x;
      assert p.0 !in b ==> p !in y;
    }
  }

  /** The whole state of a search: what `Snapshot` holds, low-links, visiting order and scanned entries. */
  datatype View = View(s: Snapshot, low: map<Node, nat>, order: seq<Node>, scans: multiset<(Node, nat)>)

  ghost predicate Good(adj: Adjacency, w: View) {
    && Closed(adj)
    && Inv(adj, w.s)
    && Books(w.s, w.order, w.scans)
    && w.low.Keys == w.s.indices.Keys
  }

  /** What stays as it was, and what is known of `v`, while its edges are followed. */
  ghost predicate Frame(adj: Adjacency, w0: View, w: View, v: Node) {
    && Extends(w0.s, w.s, w0.low, w.low)
    && w.s.open == w0.s.open + {v}
    && v !in w0.s.indices && v in w.s.indices
    && (forall x :: x in w0.s.indices ==> w0.s.indices[x] < w.s.indices[v])
    && (forall g :: g in w.s.open ==> Reach(adj, g, v))
  }

  /** `v` was entered in state `w0`; in state `w` the first `done` of its edges have been followed. */
  ghost predicate InScan(adj: Adjacency, w0: View, w: View, v: Node, done: nat) {
    && Good(adj, w0) && Good(adj, w)
    && Scanning(adj, w.s, w.low, v, |w0.s.stack|, done)
    && Frame(adj, w0, w, v)
    && Scanned(adj, w0.s.indices, w.s.indices, w0.scans, w.scans, v, done)
  }

  /** `v` was entered in state `w0` and has been left in state `w`. */
  ghost predicate After(adj: Adjacency, w0: View, w: View, v: Node) {
    && Good(adj, w)
    && v in adj
    && Explored(adj, w0.s, w.s, w0.low, w.low, v)
    && Scanned(adj, w0.s.indices, w.s.indices, w0.scans, w.scans, v, |adj[v]|)
  }

  ghost function Begun(w: View, v: Node): View {
    View(Entered(w.s, v, |w.order|), w.low[v := |w.order|], w.order + [v], w.scans)
  }

  lemma BeginScan(adj: Adjacency, w: View, v: Node)
    requires Good(adj, w) && v in adj && v !in w.s.indices
    requires forall g :: g in w.s.open ==> Reach(adj, g, v)
    ensures InScan(adj, w, Begun(w, v), v, 0)
  {
    hide Inv, Scanning, Scanned, Books, Closed, Good, Frame;
    BegunIsGood(adj, w, v);
    BegunFrame(adj, w, v);
    BegunScans(adj, w, v);
  }

  lemma BegunIsGood(adj: Adjacency, w: View, v: Node)
    requires Good(adj, w) && v in adj && v !in w.s.indices
    requires forall g :: g in w.s.open ==> Reach(adj, g, v)
    ensures Good(adj, Begun(w, v))
  {
    hide Inv, AllSorted, Closed, Reach;
    EnterKeepsInv(adj, w.s, v, |w.order|);
    EnterKeepsBooks(w.s, w.order, w.scans, v);
  }

  lemma BegunFrame(adj: Adjacency, w: View, v: Node)
    requires Good(adj, w) && v in adj && v !in w.s.indices
    requires forall g :: g in w.s.open ==> Reach(adj, g, v)
    ensures Frame(adj, w, Begun(w, v), v)
  {
    hide Inv, AllSorted, Closed, Reach;
    ReachSelf(adj, v);
  }

  lemma BegunScans(adj: Adjacency, w: View, v: Node)
    requires Good(adj, w) && v in adj && v !in w.s.indices
    ensures var w' := Begun(w, v);
            && Scanning(adj, w'.s, w'.low, v, |w.s.stack|, 0)
            && Scanned(adj, w.s.indices, w'.s.indices, w.scans, w'.scans, v, 0)
  {
    hide Scanned, Scanning, Closed, Reach, AllSorted;
    ScanStart(adj, w.s, w.low, v, |w.order|);
    ScannedNone(adj, w.s.indices, Begun(w, v).s.indices, w.scans, v);
  }

  /** Before exploring an unvisited successor: every open node reaches it. */
  lemma OpenReachesTarget(adj: Adjacency, w0: View, w: View, v: Node, done: nat)
    requires InScan(adj, w0, w, v, done) && done < |adj[v]|
    ensures forall g :: g in w.s.open ==> Reach(adj, g, adj[v][done])
  {
    forall g | g in w.s.open
      ensures Reach(adj, g, adj[v][done])
    {
      ReachEdge(adj, v, adj[v][done]);
      ReachTrans(adj, g, v, adj[v][done]);
    }
  }

  /** The facts about `v` that the bodies below need when the invariants are hidden. */
  lemma AtNode(adj: Adjacency, w0: View, w: View, v: Node, done: nat)
    requires InScan(adj, w0, w, v, done)
    ensures v in adj && v in w.s.indices && v in w.low && |w0.s.stack| < |w.s.stack|
    ensures Layout(adj, w.s)
    ensures forall i :: |w0.s.stack| < i < |w.s.stack| ==> w.s.stack[i] !in w.s.open
    ensures forall x :: x in w.s.stack ==> x in w.s.indices
    ensures forall x :: x in adj[v] ==> x in adj
    ensures w.s.indices.Keys <= adj.Keys && w0.s.indices.Keys < w.s.indices.Keys
    ensures v in w.s.open && v !in w0.s.open
  {
    forall x | x in adj[v]
      ensures x in adj
    {
      assert Edge(adj, v, x);
    }
  }

  ghost function Looked(w: View, v: Node, done: nat): View {
    w.(scans := w.scans + multiset{(v, done)})
  }

  lemma LookedIsGood(adj: Adjacency, w0: View, w: View, v: Node, done: nat)
    requires InScan(adj, w0, w, v, done)
    ensures Good(adj, Looked(w, v, done))
  {
  }

  /** Lowering the low-link of `v` changes nothing but that. */
  lemma LoweredKeeps(adj: Adjacency, w0: View, w: View, v: Node, done: nat, low: nat)
    requires InScan(adj, w0, w, v, done)
    ensures Good(adj, Looked(w, v, done)) && Frame(adj, w0, Looked(w, v, done), v)
    ensures var w' := Lowered(w, v, done, low); Good(adj, w') && Frame(adj, w0, w', v)
  {
    hide Inv, Scanning, Scanned, Enumerates, AllSorted, Reach, Closed;
  }

  ghost function Lowered(w: View, v: Node, done: nat, low: nat): View {
    Looked(w, v, done).(low := w.low[v := low])
  }

  lemma SeenIsScanned(adj: Adjacency, w0: View, w: View, v: Node, done: nat)
    requires InScan(adj, w0, w, v, done) && done < |adj[v]| && adj[v][done] in w.s.indices
    ensures adj[v][done] in w.s.stack ==>
              Scanning(adj, w.s, w.low[v := Min(w.low[v], w.s.indices[adj[v][done]])], v, |w0.s.stack|, done + 1)
    ensures adj[v][done] !in w.s.stack ==> Scanning(adj, w.s, w.low, v, |w0.s.stack|, done + 1)
    ensures Scanned(adj, w0.s.indices, w.s.indices, w0.scans, Looked(w, v, done).scans, v, done + 1)
  {
    hide Inv, Scanned, Enumerates, AllSorted, Reach, Closed;
    ScanSeen(adj, w.s, w.low, v, |w0.s.stack|, done);
    ScannedOne(adj, w0.s.indices, w.s.indices, w0.scans, w.scans, v, done);
  }

  lemma FollowSeen(adj: Adjacency, w0: View, w: View, v: Node, done: nat)
    requires InScan(adj, w0, w, v, done) && done < |adj[v]| && adj[v][done] in w.s.indices
    ensures adj[v][done] in w.s.stack ==>
              InScan(adj, w0, Lowered(w, v, done, Min(w.low[v], w.s.indices[adj[v][done]])), v, done + 1)
    ensures adj[v][done] !in w.s.stack ==> InScan(adj, w0, Looked(w, v, done), v, done + 1)
  {
    hide Good, Scanning, Scanned, Frame;
    AtNode(adj, w0, w, v, done);
    LoweredKeeps(adj, w0, w, v, done, Min(w.low[v], w.s.indices[adj[v][done]]));
    SeenIsScanned(adj, w0, w, v, done);
  }

  ghost function Taken(w2: View, v: Node, x: Node): View
    requires v in w2.low && x in w2.low
  {
    w2.(low := w2.low[v := Min(w2.low[v], w2.low[x])])
  }

  lemma FollowTreeScanning(adj: Adjacency, w0: View, w: View, w2: View, v: Node, done: nat)
    requires InScan(adj, w0, w, v, done) && done < |adj[v]|
    requires After(adj, Looked(w, v, done), w2, adj[v][done])
    ensures v in w2.low && adj[v][done] in w2.low
    ensures Scanning(adj, w2.s, Taken(w2, v, adj[v][done]).low, v, |w0.s.stack|, done + 1)
  {
    hide Chained, AllAnchored, EdgesSeen, Finished, Scanned, Books, Frame, Closed, LowBound, LowWitness;
    StillClosedAbove(adj, w.s, w2.s, |w0.s.stack|);
    ScanTree(adj, w.s, w2.s, w.low, w2.low, v, |w0.s.stack|, done);
  }

  lemma FollowTreeScanned(adj: Adjacency, w0: View, w: View, w2: View, v: Node, done: nat)
    requires InScan(adj, w0, w, v, done) && done < |adj[v]|
    requires After(adj, Looked(w, v, done), w2, adj[v][done])
    ensures Scanned(adj, w0.s.indices, w2.s.indices, w0.scans, w2.scans, v, done + 1)
  {
    hide Inv, Scanning, Scanned, Enumerates, AllSorted, Reach, Closed, LowBound, LowWitness;
    AtNode(adj, w0, w, v, done);
    ScannedTree(adj, w0.s.indices, w.s.indices, w2.s.indices, w0.scans, w.scans, w2.scans, v, adj[v][done], done);
  }

  lemma FollowTreeGood(adj: Adjacency, w2: View, v: Node, x: Node)
    requires Good(adj, w2) && v in w2.low && x in w2.low
    ensures Good(adj, Taken(w2, v, x))
  {
    hide Inv, Books, Closed;
  }

  lemma FollowTreeFrame(adj: Adjacency, w0: View, w: View, w2: View, v: Node, done: nat)
    requires InScan(adj, w0, w, v, done) && done < |adj[v]|
    requires After(adj, Looked(w, v, done), w2, adj[v][done])
    ensures v in w2.low && adj[v][done] in w2.low
    ensures Frame(adj, w0, Taken(w2, v, adj[v][done]), v)
  {
    hide Good, Scanned, Reach, LowBound, LowWitness;
    AtNode(adj, w0, w, v, done);
  }

  lemma AfterIsGood(adj: Adjacency, w0: View, w: View, v: Node)
    requires After(adj, w0, w, v)
    ensures Good(adj, w)
  {
  }

  lemma FollowTree(adj: Adjacency, w0: View, w: View, w2: View, v: Node, done: nat)
    requires InScan(adj, w0, w, v, done) && done < |adj[v]|
    requires After(adj, Looked(w, v, done), w2, adj[v][done])
    ensures v in w2.low && adj[v][done] in w2.low
    ensures InScan(adj, w0, Taken(w2, v, adj[v][done]), v, done + 1)
  {
    hide Good, Scanning, Scanned, Frame, Explored;
    AtNode(adj, w0, w, v, done);
    FollowTreeScanning(adj, w0, w, w2, v, done);
    FollowTreeScanned(adj, w0, w, w2, v, done);
    FollowTreeFrame(adj, w0, w, w2, v, done);
    AfterIsGood(adj, Looked(w, v, done), w2, adj[v][done]);
    FollowTreeGood(adj, w2, v, adj[v][done]);
  }

  lemma StackIsDistinct(adj: Adjacency, s: Snapshot, base: nat)
    requires Layout(adj, s) && base < |s.stack|
    ensures forall x :: x in s.stack[..base] ==> x !in s.stack[base..]
    ensures forall i :: base < i < |s.stack| ==> s.stack[i] != s.stack[base]
  {
    forall x | x in s.stack[..base]
      ensures x !in s.stack[base..]
    {
      SortedParts(s.stack, s.indices, base, x);
    }
    forall i | base < i < |s.stack|
      ensures s.stack[i] != s.stack[base]
    {
      SortedPositions(s.stack, s.indices, base, i);
    }
  }

  /** Where the scan of `v` ends at a low-link equal to its index, a component is popped. */
  lemma EndAtRoot(adj: Adjacency, w0: View, w: View, v: Node)
    requires v in adj && InScan(adj, w0, w, v, |adj[v]|) && w.low[v] == w.s.indices[v]
    ensures |w0.s.stack| < |w.s.stack| && w.s.stack[|w0.s.stack|] == v
    ensures forall x :: x in w.s.stack[..|w0.s.stack|] ==> x !in w.s.stack[|w0.s.stack|..]
    ensures forall i :: |w0.s.stack| < i < |w.s.stack| ==> w.s.stack[i] != v
    ensures After(adj, w0, w.(s := Popped(w.s, |w0.s.stack|)), v)
  {
    StackIsDistinct(adj, w.s, |w0.s.stack|);
    ScanEndRoot(adj, w.s, w.low, v, |w0.s.stack|);
    PopKeepsInv(adj, w.s, |w0.s.stack|);
    PopKeepsBooks(w.s, w.order, w.scans, |w0.s.stack|);
  }

  /** The low-link of `v` names an older stack node that `v` reaches. */
  lemma LowLinkIsReached(adj: Adjacency, w0: View, w: View, v: Node) returns (u: Node)
    requires v in adj && InScan(adj, w0, w, v, |adj[v]|) && w.low[v] != w.s.indices[v]
    ensures u in w.s.stack && w.s.indices[u] == w.low[v] < w.s.indices[v] && Reach(adj, v, u)
  {
    hide Inv, Books, Scanned, Frame, Closed, Reach, LowBound;
    u :| u in w.s.stack && u in w.s.indices && w.s.indices[u] == w.low[v] && Reach(adj, v, u);
  }

  lemma InsideIsGood(adj: Adjacency, w0: View, w: View, v: Node)
    requires v in adj && InScan(adj, w0, w, v, |adj[v]|) && w.low[v] != w.s.indices[v]
    ensures w.s.open - {v} == w0.s.open
    ensures Good(adj, w.(s := w.s.(open := w0.s.open)))
  {
    hide Inv, Enumerates, AllSorted, Scanned, Closed, Reach, LowBound, LowWitness;
    AtNode(adj, w0, w, v, |adj[v]|);
    var u := LowLinkIsReached(adj, w0, w, v);
    LeaveKeepsInv(adj, w.s, v, u);
    assert w.s.open - {v} == w0.s.open;
  }

  /** Where it ends lower, `v` stays on the stack. */
  lemma EndInside(adj: Adjacency, w0: View, w: View, v: Node)
    requires v in adj && InScan(adj, w0, w, v, |adj[v]|) && w.low[v] != w.s.indices[v]
    ensures After(adj, w0, w.(s := w.s.(open := w0.s.open)), v)
  {
    hide Good, Scanned, Reach;
    InsideIsGood(adj, w0, w, v);
    var t := w.s.(open := w0.s.open);
    assert LowBound(adj, t.stack, t.indices, |w0.s.stack|, |w0.s.stack|, w.low[v]);
  }
}
