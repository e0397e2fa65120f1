/** The depth-first visiting order of a graph, without stacks, indices or low-links. */
module DepthFirst {
  import opened Common
  import opened Digraph

  ghost function Unseen(adj: Adjacency, seen: seq<Node>): set<Node> {
    adj.Keys - (set x | x in seen)
  }

  /** `seen`, followed by what a visit to `v` discovers. */
  ghost function Visit(adj: Adjacency, seen: seq<Node>, v: Node): (order: seq<Node>)
    ensures seen <= order
    decreases Unseen(adj, seen), 0
  {
    if v in seen || v !in adj then seen
    else
      assert v in Unseen(adj, seen) && v !in Unseen(adj, seen + [v]);
      VisitAll(adj, seen + [v], adj[v])
  }

  /** `seen`, followed by what visits to all of `ws`, one after the other, discover. */
  ghost function VisitAll(adj: Adjacency, seen: seq<Node>, ws: seq<Node>): (order: seq<Node>)
    ensures seen <= order
    decreases Unseen(adj, seen), |ws|
  {
    if ws == [] then seen
    else
      var before := VisitAll(adj, seen, ws[..|ws| - 1]);
      assert forall x :: x in seen ==> x in before;
      assert Unseen(adj, before) <= Unseen(adj, seen);
      Visit(adj, before, ws[|ws| - 1])
  }

  lemma VisitNone(adj: Adjacency, seen: seq<Node>)
    ensures VisitAll(adj, seen, []) == seen
  {
  }

  lemma VisitOneMore(adj: Adjacency, seen: seq<Node>, ws: seq<Node>, i: nat)
    requires i < |ws|
    ensures VisitAll(adj, seen, ws[..i + 1]) == Visit(adj, VisitAll(adj, seen, ws[..i]), ws[i])
  {
    assert ws[..i + 1][..i] == ws[..i];
  }

  lemma VisitNew(adj: Adjacency, seen: seq<Node>, v: Node)
    requires v in adj && v !in seen
    ensures Visit(adj, seen, v) == VisitAll(adj, seen + [v], adj[v])
  {
  }

  lemma VisitSeen(adj: Adjacency, seen: seq<Node>, v: Node)
    requires v in seen
    ensures Visit(adj, seen, v) == seen
  {
  }

  /** The nodes of a list are visited from the first to the last. */
  lemma {:induction false} VisitAllFromFirst(adj: Adjacency, seen: seq<Node>, w: Node, ws: seq<Node>)
    ensures VisitAll(adj, seen, [w] + ws) == VisitAll(adj, Visit(adj, seen, w), ws)
    decreases |ws|
  {
    if ws == [] {
      assert [w] + ws == [w] && [w][..0] == [];
    } else {
      var n := |ws| - 1;
      assert ([w] + ws)[..|ws|] == [w] + ws[..n];
      VisitAllFromFirst(adj, seen, w, ws[..n]);
    }
  }

  // ----- What kind of order this is -----

  ghost predicate Follows(adj: Adjacency, order: seq<Node>, q: nat, b: nat)
    requires q < b < |order|
  {
    Edge(adj, order[q], order[b])
  }

  /** Position `b` has a predecessor at or after position `a`. */
  ghost predicate Found(adj: Adjacency, order: seq<Node>, a: nat, b: nat)
    requires b < |order|
  {
    exists q {:trigger Follows(adj, order, q, b)} :: a <= q < b && Follows(adj, order, q, b)
  }

  /** From `n` on, whatever lies between a node and one of its successors was found from there. */
  ghost predicate Gapless(adj: Adjacency, order: seq<Node>, n: nat) {
    forall a: nat, b: nat, c: nat {:trigger Follows(adj, order, a, c), Found(adj, order, a, b)} ::
      n <= a < b <= c < |order| && Follows(adj, order, a, c) ==> Found(adj, order, a, b)
  }

  /** From `n` on, all successors are there. */
  ghost predicate Complete(adj: Adjacency, order: seq<Node>, n: nat) {
    forall a, y {:trigger Edge(adj, order[a], y)} :: n <= a < |order| && Edge(adj, order[a], y) ==> y in order
  }

  lemma FoundLater(adj: Adjacency, before: seq<Node>, order: seq<Node>, a: nat, b: nat)
    requires before <= order && b < |before| && Found(adj, before, a, b)
    ensures Found(adj, order, a, b)
  {
    var q: nat :| a <= q < b && Follows(adj, before, q, b);
    assert Follows(adj, order, q, b);
  }

  lemma FoundFrom(adj: Adjacency, order: seq<Node>, a: nat, a': nat, b: nat)
    requires a <= a' && b < |order| && Found(adj, order, a', b)
    ensures Found(adj, order, a, b)
  {
    var q: nat :| a' <= q < b && Follows(adj, order, q, b);
  }

  /** What a visit discovers after its root was found from something it discovered before. */
  lemma {:induction false} VisitFinds(adj: Adjacency, seen: seq<Node>, v: Node, b: nat)
    requires |seen| < b < |Visit(adj, seen, v)|
    ensures Found(adj, Visit(adj, seen, v), |seen|, b)
    decreases Unseen(adj, seen), 0
  {
    var order := Visit(adj, seen, v);
    assert v in Unseen(adj, seen) && v !in Unseen(adj, seen + [v]);
    VisitAllFinds(adj, seen + [v], adj[v], b);
    if Found(adj, order, |seen| + 1, b) {
      FoundFrom(adj, order, |seen|, |seen| + 1, b);
    } else {
      assert order[|seen|] == v;
      assert Follows(adj, order, |seen|, b);
    }
  }

  lemma {:induction false} VisitAllFinds(adj: Adjacency, seen: seq<Node>, ws: seq<Node>, b: nat)
    requires |seen| <= b < |VisitAll(adj, seen, ws)|
    ensures var order := VisitAll(adj, seen, ws);
            order[b] in ws || Found(adj, order, |seen|, b)
    decreases Unseen(adj, seen), |ws|
  {
    var n := |ws| - 1;
    var before, order := VisitAll(adj, seen, ws[..n]), VisitAll(adj, seen, ws);
    if b < |before| {
      VisitAllFinds(adj, seen, ws[..n], b);
      if Found(adj, before, |seen|, b) {
        FoundLater(adj, before, order, |seen|, b);
      }
    } else if b > |before| {
      StillUnseen(adj, seen, before);
      VisitFinds(adj, before, ws[n], b);
      FoundFrom(adj, order, |seen|, |before|, b);
    } else {
      VisitStarts(adj, before, ws[n]);
    }
  }

  lemma StillUnseen(adj: Adjacency, seen: seq<Node>, before: seq<Node>)
    requires seen <= before
    ensures Unseen(adj, before) <= Unseen(adj, seen)
  {
    assert forall x :: x in seen ==> x in before;
  }

  lemma VisitStarts(adj: Adjacency, seen: seq<Node>, v: Node)
    ensures var order := Visit(adj, seen, v); |order| > |seen| ==> order[|seen|] == v
  {
  }

  /** A visit reaches its node and leaves no successor of what it discovers behind. */
  lemma {:induction false} VisitCompletes(adj: Adjacency, seen: seq<Node>, v: Node)
    requires Closed(adj) && v in adj
    ensures var order := Visit(adj, seen, v); v in order && Complete(adj, order, |seen|)
    decreases Unseen(adj, seen), 0
  {
    if v !in seen {
      assert v in Unseen(adj, seen) && v !in Unseen(adj, seen + [v]);
      assert forall y :: y in adj[v] ==> Edge(adj, v, y);
      VisitAllCompletes(adj, seen + [v], adj[v]);
      assert (seen + [v])[|seen|] == v;
      assert v in seen + [v];
    }
  }

  lemma {:induction false} VisitAllCompletes(adj: Adjacency, seen: seq<Node>, ws: seq<Node>)
    requires Closed(adj) && forall w :: w in ws ==> w in adj
    ensures var order := VisitAll(adj, seen, ws);
            && Complete(adj, order, |seen|)
            && (forall x :: x in seen ==> x in order)
            && (forall w :: w in ws ==> w in order)
    decreases Unseen(adj, seen), |ws|
  {
    if ws != [] {
      var n := |ws| - 1;
      var before, order := VisitAll(adj, seen, ws[..n]), VisitAll(adj, seen, ws);
      VisitAllCompletes(adj, seen, ws[..n]);
      StillUnseen(adj, seen, before);
      VisitCompletes(adj, before, ws[n]);
      assert forall x :: x in before ==> x in order;
      assert forall a :: 0 <= a < |before| ==> order[a] == before[a];
      assert ws == ws[..n] + [ws[n]];
    }
  }

  lemma {:induction false} VisitIsGapless(adj: Adjacency, seen: seq<Node>, v: Node)
    requires Closed(adj) && Distinct(seen)
    ensures var order := Visit(adj, seen, v); Distinct(order) && Gapless(adj, order, |seen|)
    decreases Unseen(adj, seen), 0
  {
    if v !in seen && v in adj {
      var order := Visit(adj, seen, v);
      assert v in Unseen(adj, seen) && v !in Unseen(adj, seen + [v]);
      assert forall y :: y in adj[v] ==> Edge(adj, v, y);
      VisitAllIsGapless(adj, seen + [v], adj[v]);
      forall a: nat, b: nat, c: nat | |seen| <= a < b <= c < |order| && Follows(adj, order, a, c)
        ensures Found(adj, order, a, b)
      {
        if a == |seen| {
          VisitFinds(adj, seen, v, b);
        }
      }
    }
  }

  lemma {:induction false} VisitAllIsGapless(adj: Adjacency, seen: seq<Node>, ws: seq<Node>)
    requires Closed(adj) && Distinct(seen) && forall w :: w in ws ==> w in adj
    ensures var order := VisitAll(adj, seen, ws); Distinct(order) && Gapless(adj, order, |seen|)
    decreases Unseen(adj, seen), |ws|
  {
    if ws != [] {
      var n := |ws| - 1;
      var before, order := VisitAll(adj, seen, ws[..n]), VisitAll(adj, seen, ws);
      VisitAllIsGapless(adj, seen, ws[..n]);
      VisitAllCompletes(adj, seen, ws[..n]);
      StillUnseen(adj, seen, before);
      VisitIsGapless(adj, before, ws[n]);
      forall a: nat, b: nat, c: nat | |seen| <= a < b <= c < |order| && Follows(adj, order, a, c)
        ensures Found(adj, order, a, b)
      {
        if a < |before| {
          SuccessorIsEarly(adj, before, order, |seen|, a, c);
          assert Follows(adj, before, a, c);
          assert Found(adj, before, a, b);
          FoundLater(adj, before, order, a, b);
        }
      }
    }
  }

  /** Successors of what is complete come before everything that is added later. */
  lemma SuccessorIsEarly(adj: Adjacency, before: seq<Node>, order: seq<Node>, n: nat, a: nat, c: nat)
    requires before <= order && Distinct(order) && Complete(adj, before, n)
    requires n <= a < |before| && a < c < |order| && Follows(adj, order, a, c)
    ensures c < |before|
  {
    assert Edge(adj, before[a], order[c]);
    var c' :| 0 <= c' < |before| && before[c'] == order[c];
    assert order[c'] == order[c];
  }
}
