// struct/minmumSpanningTree.cc: Prim's algorithm with a heap that is never cleaned, and Kruskal's
// over a bare parent vector.
module PrimSteps {
  import opened SpanningForests

  // Edge e leads from x, in S, to y, outside it.
  ghost predicate Crosses(e: Edge, S: set<nat>, x: nat, y: nat) {
    Joins(e, x, y) && x in S && y !in S
  }

  // K is a tree on the nodes of S, made of edges of E.
  ghost predicate TreeOn(K: set<Edge>, S: set<nat>, E: set<Edge>) {
    && K <= E && Acyclic(K)
    && (forall e :: e in K ==> e.u in S && e.v in S)
    && forall x, y :: x in S && y in S ==> Connected(K, x, y)
  }

  // Every edge inside S has its ends connected by tree edges no heavier than itself.
  ghost predicate Settled(K: set<Edge>, S: set<nat>, E: set<Edge>) {
    forall e :: e in E && e.u in S && e.v in S ==> Connected(UpTo(K, e.w), e.u, e.v)
  }

  // The inner ends of any two edges leaving S are connected by tree edges no heavier than both.
  ghost predicate Balanced(K: set<Edge>, S: set<nat>, E: set<Edge>) {
    forall d, a, b, e, x, y :: d in E && e in E && Crosses(d, S, a, b) && Crosses(e, S, x, y) && d.w <= e.w ==>
      Connected(UpTo(K, e.w), a, x) && Connected(UpTo(K, e.w), x, a)
  }

  ghost predicate Growing(K: set<Edge>, S: set<nat>, E: set<Edge>) {
    TreeOn(K, S, E) && Settled(K, S, E) && Balanced(K, S, E)
  }

  // A path whose edges never leave S ends in S.
  lemma {:induction false} PathStays(F: set<Edge>, S: set<nat>, p: seq<nat>)
    requires IsPath(F, p) && p[0] in S
    requires forall e, x, y :: e in F ==> !Crosses(e, S, x, y)
    ensures p[|p| - 1] in S
  {
    if |p| > 1 {
      var q := p[..|p| - 1];
      assert forall i :: 0 <= i < |q| - 1 ==> Linked(F, p[i], p[i + 1]);
      PathStays(F, S, q);
      assert Linked(F, p[|p| - 2], p[|p| - 2 + 1]);
      var e :| e in F && Joins(e, p[|p| - 2], p[|p| - 1]);
      assert !Crosses(e, S, p[|p| - 2], p[|p| - 1]);
    }
  }

  lemma Confined(F: set<Edge>, S: set<nat>, x: nat, y: nat)
    requires Connected(F, x, y) && x in S
    requires forall e, x, y :: e in F ==> !Crosses(e, S, x, y)
    ensures y in S
  {
    var p :| Connects(F, p, x, y);
    PathStays(F, S, p);
  }

  lemma FirstNode(x: nat, E: set<Edge>)
    ensures Growing({}, {x}, E)
  {
    forall F: set<Edge> ensures Connected(F, x, x) {
      ConnectedReflexive(F, x);
    }
  }

  // One round: the lightest edge leaving S joins the tree, and its outer end joins S.
  lemma GrowTree(K: set<Edge>, S: set<nat>, E: set<Edge>, e: Edge, x: nat, y: nat)
    requires TreeOn(K, S, E) && e in E && Crosses(e, S, x, y)
    ensures e !in K && TreeOn(K + {e}, S + {y}, E) && Weight(K + {e}) == Weight(K) + e.w
  {
    if Connected(K, e.u, e.v) {
      ConnectedSymmetric(K, e.u, e.v);
      Confined(K, S, x, y);
      assert false;
    }
    AcyclicAdd(K, e);
    WeightRemove(K + {e}, e);
    assert K + {e} - {e} == K;
    ConnectedByEdge(K + {e}, e);
    ConnectedReflexive(K + {e}, y);
    forall a | a in S ensures Connected(K + {e}, a, y) && Connected(K + {e}, y, a) {
      ConnectedMonotone(K, K + {e}, a, x);
      ConnectedTransitive(K + {e}, a, x, y);
      ConnectedSymmetric(K + {e}, a, y);
    }
    forall a, b | a in S && b in S ensures Connected(K + {e}, a, b) {
      ConnectedMonotone(K, K + {e}, a, b);
    }
  }

  ghost predicate Lightest(e: Edge, S: set<nat>, E: set<Edge>) {
    forall d, a, b :: d in E && Crosses(d, S, a, b) ==> e.w <= d.w
  }

  // The inner end of an edge that left S is connected to the new node within the edge's weight.
  lemma ReachNew(K: set<Edge>, S: set<nat>, E: set<Edge>, e: Edge, x: nat, y: nat, d: Edge, a: nat, b: nat)
    requires Balanced(K, S, E) && e in E && Crosses(e, S, x, y) && Lightest(e, S, E)
    requires d in E && Crosses(d, S, a, b)
    ensures e.w <= d.w
    ensures Connected(UpTo(K + {e}, d.w), a, y) && Connected(UpTo(K + {e}, d.w), y, a)
  {
    var F := UpTo(K + {e}, d.w);
    ConnectedMonotone(UpTo(K, d.w), F, a, x);
    ConnectedByEdge(F, e);
    ConnectedTransitive(F, a, x, y);
    ConnectedSymmetric(F, a, y);
  }

  lemma GrowSettled(K: set<Edge>, S: set<nat>, E: set<Edge>, e: Edge, x: nat, y: nat)
    requires Growing(K, S, E) && e in E && Crosses(e, S, x, y) && Lightest(e, S, E)
    ensures Settled(K + {e}, S + {y}, E)
  {
    forall d | d in E && d.u in S + {y} && d.v in S + {y} ensures Connected(UpTo(K + {e}, d.w), d.u, d.v) {
      var F := UpTo(K + {e}, d.w);
      if d.u in S && d.v in S {
        ConnectedMonotone(UpTo(K, d.w), F, d.u, d.v);
      } else if d.u in S {
        ReachNew(K, S, E, e, x, y, d, d.u, y);
      } else if d.v in S {
        ReachNew(K, S, E, e, x, y, d, d.v, y);
      } else {
        ConnectedReflexive(F, y);
      }
    }
  }

  lemma GrowBalanced(K: set<Edge>, S: set<nat>, E: set<Edge>, e: Edge, x: nat, y: nat)
    requires Growing(K, S, E) && e in E && Crosses(e, S, x, y) && Lightest(e, S, E)
    ensures Balanced(K + {e}, S + {y}, E)
  {
    var S' := S + {y};
    forall d, a, b, f, g, h | d in E && f in E && Crosses(d, S', a, b) && Crosses(f, S', g, h) && d.w <= f.w
      ensures Connected(UpTo(K + {e}, f.w), a, g) && Connected(UpTo(K + {e}, f.w), g, a)
    {
      var F := UpTo(K + {e}, f.w);
      if a in S && g in S {
        assert Crosses(d, S, a, b) && Crosses(f, S, g, h);
        ConnectedMonotone(UpTo(K, f.w), F, a, g);
        ConnectedMonotone(UpTo(K, f.w), F, g, a);
      } else if a in S {
        assert Crosses(d, S, a, b);
        ReachNew(K, S, E, e, x, y, d, a, b);
        ConnectedMonotone(UpTo(K + {e}, d.w), F, a, y);
        ConnectedMonotone(UpTo(K + {e}, d.w), F, y, a);
      } else if g in S {
        assert Crosses(f, S, g, h);
        ReachNew(K, S, E, e, x, y, f, g, h);
      } else {
        ConnectedReflexive(F, y);
      }
    }
  }

  lemma GrowAll(K: set<Edge>, S: set<nat>, E: set<Edge>, e: Edge, x: nat, y: nat)
    requires Growing(K, S, E) && e in E && Crosses(e, S, x, y) && Lightest(e, S, E)
    ensures Growing(K + {e}, S + {y}, E) && Weight(K + {e}) == Weight(K) + e.w
  {
    GrowTree(K, S, E, e, x, y);
    GrowSettled(K, S, E, e, x, y);
    GrowBalanced(K, S, E, e, x, y);
  }

  ghost predicate AllConnected(E: set<Edge>, n: nat) {
    forall x: nat, y: nat :: x < n && y < n ==> Connected(E, x, y)
  }

  // A tree that has grown over every node is a minimum spanning tree.
  lemma Grown(K: set<Edge>, S: set<nat>, E: set<Edge>, n: nat)
    requires Growing(K, S, E) && InRange(E, n) && forall x: nat :: x < n ==> x in S
    ensures MinimumSpanningForest(K, E) && AllConnected(E, n)
  {
    LightForestIsMinimum(K, E, n);
    forall x: nat, y: nat | x < n && y < n ensures Connected(E, x, y) {
      ConnectedMonotone(K, E, x, y);
    }
  }

  // With no edge left to leave S by, the nodes outside S cannot be reached.
  lemma Stuck(S: set<nat>, E: set<Edge>, n: nat, x: nat, y: nat)
    requires x in S && x < n && y !in S && y < n
    requires forall e, x, y :: e in E ==> !Crosses(e, S, x, y)
    ensures !AllConnected(E, n)
  {
    if Connected(E, x, y) {
      Confined(E, S, x, y);
    }
  }
}

module MinimumSpanningTrees {
  import opened SpanningForests
  import opened ParentForests
  import opened KruskalSteps
  import opened PrimSteps
  import opened Collections

  // Adjacency lists of (neighbour, weight).
  type Adjacency = seq<seq<(nat, int)>>

  // g lists the edges of E at both of their ends, and nothing else.
  ghost predicate Describes(g: Adjacency, n: nat, E: set<Edge>) {
    && |g| == n && InRange(E, n)
    && (forall x, m :: 0 <= x < n && m in g[x] ==> m.0 < n && EdgeBetween(E, x, m.0, m.1))
    && forall x: nat, y: nat, w :: x < n && EdgeBetween(E, x, y, w) ==> (y, w) in g[x]
  }

  ghost predicate EdgeBetween(E: set<Edge>, x: nat, y: nat, w: int) {
    Edge(x, y, w) in E || Edge(y, x, w) in E
  }

  // ---------------------------------------------------------------------------------------
  // Prim

  // The heap holds (weight, node) pairs; which of several lightest comes first is not fixed.
  type Heap = multiset<(int, nat)>

  lemma HeapHasLeast(pq: Heap) returns (top: (int, nat))
    requires |pq| > 0
    ensures top in pq && forall m :: m in pq ==> top.0 <= m.0
  {
    top :| top in pq;
    var first, rest := top, pq - multiset{top};
    assert pq == rest + multiset{first};
    if |rest| > 0 {
      var t := HeapHasLeast(rest);
      if t.0 < top.0 { top := t; }
    }
    forall m | m in pq ensures top.0 <= m.0 {
      assert m == first || m in rest;
    }
  }

  method Pop(pq: Heap) returns (top: (int, nat), rest: Heap)
    requires |pq| > 0
    ensures top in pq && (forall m :: m in pq ==> top.0 <= m.0) && rest == pq - multiset{top}
  {
    ghost var t := HeapHasLeast(pq);
    top :| top in pq && forall m :: m in pq ==> top.0 <= m.0;
    rest := pq - multiset{top};
  }

  ghost function SeenSet(seen: seq<nat>): (S: set<nat>)
    ensures forall x :: x in S ==> x < |seen|
  {
    set x: nat | x < |seen| && seen[x] != 0
  }

  // Heap entries for nodes outside S are edges leaving S, and every such edge has its entry.
  ghost predicate Frontier(pq: Heap, S: set<nat>, E: set<Edge>, n: nat) {
    && (forall m :: m in pq ==> m.1 < n && exists x :: x in S && EdgeBetween(E, x, m.1, m.0))
    && forall e, x: nat, y: nat :: e in E && Crosses(e, S, x, y) ==> (e.w, y) in pq
  }

  // pq offers the first node to an empty tree, or else the frontier of the tree.
  ghost predicate Offers(pq: Heap, K: set<Edge>, S: set<nat>, E: set<Edge>, n: nat) {
    if S == {} then n > 0 ==> pq == multiset{(0, 0)}
    else Growing(K, S, E) && Frontier(pq, S, E, n)
  }

  lemma TakeLightest(pq: Heap, K: set<Edge>, S: set<nat>, E: set<Edge>, n: nat, top: (int, nat)) returns (K': set<Edge>)
    requires Offers(pq, K, S, E, n) && n > 0 && (S == {} ==> K == {})
    requires top in pq && (forall m :: m in pq ==> top.0 <= m.0) && top.1 !in S
    ensures top.1 < n && Growing(K', S + {top.1}, E) && Weight(K') == Weight(K) + top.0
  {
    if S == {} {
      K' := {};
      FirstNode(top.1, E);
      assert S + {top.1} == {top.1};
    } else {
      var x :| x in S && EdgeBetween(E, x, top.1, top.0);
      var e := if Edge(x, top.1, top.0) in E then Edge(x, top.1, top.0) else Edge(top.1, x, top.0);
      assert Lightest(e, S, E) by {
        forall d, a: nat, b: nat | d in E && Crosses(d, S, a, b) ensures e.w <= d.w {
          assert (d.w, b) in pq;
        }
      }
      GrowAll(K, S, E, e, x, top.1);
      K' := K + {e};
    }
  }

  // A seen entry on top can be dropped.
  lemma DropSeen(pq: Heap, K: set<Edge>, S: set<nat>, E: set<Edge>, n: nat, top: (int, nat))
    requires Offers(pq, K, S, E, n) && S != {} && top in pq && top.1 in S
    ensures Offers(pq - multiset{top}, K, S, E, n)
  {
    var rest := pq - multiset{top};
    forall e, x: nat, y: nat | e in E && Crosses(e, S, x, y) ensures (e.w, y) in rest {
      assert (e.w, y) in pq && (e.w, y) != top;
    }
  }

  // One entry for each neighbour not seen yet.
  ghost function Entries(neighbours: seq<(nat, int)>, seen: seq<nat>): (h: Heap)
    requires forall m :: m in neighbours ==> m.0 < |seen|
    ensures forall m :: m in neighbours && seen[m.0] == 0 ==> (m.1, m.0) in h
    ensures forall e :: e in h ==> (e.1, e.0) in neighbours && seen[e.1] == 0
  {
    if neighbours == [] then multiset{}
    else
      var n := |neighbours| - 1;
      var p := neighbours[n];
      assert neighbours == neighbours[..n] + [p];
      Entries(neighbours[..n], seen) + if seen[p.0] == 0 then multiset{(p.1, p.0)} else multiset{}
  }

  lemma NoEntries(seen: seq<nat>)
    ensures Entries([], seen) == multiset{}
  {
  }

  lemma MoreEntries(neighbours: seq<(nat, int)>, seen: seq<nat>, k: nat)
    requires k < |neighbours| && forall m :: m in neighbours ==> m.0 < |seen|
    ensures var p := neighbours[k];
      Entries(neighbours[..k + 1], seen) ==
      Entries(neighbours[..k], seen) + if seen[p.0] == 0 then multiset{(p.1, p.0)} else multiset{}
  {
    assert neighbours[..k + 1][..k] == neighbours[..k];
  }

  // The entries pushed for v's neighbours complete the frontier of S with v added.
  lemma PushNeighbours(pq: Heap, K: set<Edge>, S: set<nat>, E: set<Edge>, n: nat, g: Adjacency,
                       top: (int, nat), K': set<Edge>, seen: seq<nat>)
    requires Describes(g, n, E) && Offers(pq, K, S, E, n) && top in pq && top.1 < n
    requires Growing(K', S + {top.1}, E) && |seen| == n && SeenSet(seen) == S + {top.1}
    requires forall m :: m in g[top.1] ==> m.0 < n
    ensures Offers(pq - multiset{top} + Entries(g[top.1], seen), K', S + {top.1}, E, n)
  {
    var rest, added := pq - multiset{top}, Entries(g[top.1], seen);
    hide Offers, Growing, Describes;
    forall m | m in g[top.1] && m.0 !in S + {top.1} ensures (m.1, m.0) in added {
      assert m.0 !in SeenSet(seen);
    }
    hide SeenSet, Entries;
    NewOffers(pq, K, S, E, n, g, top, K', rest + added);
  }

  lemma NewOffers(pq: Heap, K: set<Edge>, S: set<nat>, E: set<Edge>, n: nat, g: Adjacency,
                  top: (int, nat), K': set<Edge>, pq': Heap)
    requires Describes(g, n, E) && Offers(pq, K, S, E, n) && top in pq && top.1 < n
    requires Growing(K', S + {top.1}, E)
    requires forall m :: m in pq - multiset{top} ==> m in pq'
    requires forall m :: m in g[top.1] && m.0 !in S + {top.1} ==> (m.1, m.0) in pq'
    requires forall h :: h in pq' ==> h in pq - multiset{top} || (h.1, h.0) in g[top.1]
    ensures Offers(pq', K', S + {top.1}, E, n)
  {
    var v := top.1;
    forall h | h in pq' ensures h.1 < n && exists x :: x in S + {v} && EdgeBetween(E, x, h.1, h.0) {
      if h in pq - multiset{top} {
        var x :| x in S && EdgeBetween(E, x, h.1, h.0);
        assert x in S + {v};
      } else {
        assert v in S + {v} && EdgeBetween(E, v, h.1, h.0);
      }
    }
    forall e, x: nat, y: nat | e in E && Crosses(e, S + {v}, x, y) ensures (e.w, y) in pq' {
      if x == v {
        assert EdgeBetween(E, v, y, e.w);
        assert (y, e.w) in g[v];
      } else {
        assert Crosses(e, S, x, y);
      }
    }
  }

  // Pushes an entry for every neighbour not seen yet.
  method PushAll(pq: Heap, neighbours: seq<(nat, int)>, seen: seq<nat>) returns (pq': Heap)
    requires forall m :: m in neighbours ==> m.0 < |seen|
    ensures pq' == pq + Entries(neighbours, seen)
  {
    hide Entries;
    pq' := pq;
    NoEntries(seen);
    for k := 0 to |neighbours|
      invariant pq' == pq + Entries(neighbours[..k], seen)
    {
      var p := neighbours[k];
      MoreEntries(neighbours, seen, k);
      if seen[p.0] != 0 {
        continue;
      }
      pq' := pq' + multiset{(p.1, p.0)};
    }
    assert neighbours[..|neighbours|] == neighbours;
  }

  lemma {:induction false} AllOf(S: set<nat>, n: nat)
    requires forall x :: x in S ==> x < n
    requires |S| >= n
    ensures forall x: nat :: x < n ==> x in S
  {
    if n > 0 {
      AllOf(S - {n - 1}, n - 1);
      if n - 1 !in S {
        assert S - {n - 1} == S;
        Bounded(S, n - 1);
      }
    }
  }

  lemma {:induction false} Bounded(S: set<nat>, n: nat)
    requires forall x :: x in S ==> x < n
    ensures |S| <= n
  {
    if n == 0 {
      assert S == {};
    } else {
      Bounded(S - {n - 1}, n - 1);
    }
  }

  lemma NothingYet(seen: seq<nat>, E: set<Edge>)
    requires forall x :: 0 <= x < |seen| ==> seen[x] == 0
    ensures SeenSet(seen) == {} && Weight({}) == 0 && Offers(multiset{(0, 0)}, {}, {}, E, |seen|)
  {
  }

  lemma Mark(seen: seq<nat>, v: nat)
    requires v < |seen|
    ensures SeenSet(seen[v := seen[v] + 1]) == SeenSet(seen) + {v}
    ensures seen[v] != 0 <==> v in SeenSet(seen)
    ensures seen[v] != 0 ==> SeenSet(seen[v := seen[v] + 1]) == SeenSet(seen)
  {
  }

  lemma DescribesParts(g: Adjacency, n: nat, E: set<Edge>)
    requires Describes(g, n, E)
    ensures |g| == n && InRange(E, n) && forall x, m :: 0 <= x < n && m in g[x] ==> m.0 < n
  {
  }

  lemma NodeOnTop(pq: Heap, K: set<Edge>, S: set<nat>, E: set<Edge>, n: nat, top: (int, nat))
    requires Offers(pq, K, S, E, n) && n > 0 && top in pq
    ensures top.1 < n
  {
  }

  // An empty heap before the last round: the nodes not seen cannot be reached from those seen.
  lemma NoWayOut(pq: Heap, K: set<Edge>, S: set<nat>, E: set<Edge>, n: nat)
    requires Offers(pq, K, S, E, n) && |pq| == 0 && |S| < n && forall x :: x in S ==> x < n
    ensures !AllConnected(E, n)
  {
    var first: Heap := multiset{(0, 0)};
    assert (0, 0) in first && forall m :: m !in pq;
    var x :| x in S;
    if forall y: nat :: y < n ==> y in S {
      Filled(S, n);
    }
    var y: nat :| y < n && y !in S;
    Stuck(S, E, n, x, y);
  }

  lemma {:induction false} Filled(S: set<nat>, n: nat)
    requires forall y: nat :: y < n ==> y in S
    ensures |S| >= n
  {
    if n > 0 {
      Filled(S - {n - 1}, n - 1);
    }
  }

  lemma Complete(pq: Heap, K: set<Edge>, S: set<nat>, E: set<Edge>, n: nat)
    requires Offers(pq, K, S, E, n) && InRange(E, n) && (S == {} ==> K == {})
    requires |S| == n && forall x :: x in S ==> x < n
    ensures AllConnected(E, n) && MinimumSpanningForest(K, E)
  {
    if n == 0 {
      LightForestIsMinimum(K, E, n);
    } else {
      AllOf(S, n);
      Grown(K, S, E, n);
    }
  }

  // The heap runs empty exactly when the graph is not connected; r is then None, where the
  // original reads the top of an empty queue.
  method Prim(g: Adjacency, n: nat, ghost E: set<Edge>) returns (r: Option<int>, ghost tree: set<Edge>)
    requires Describes(g, n, E)
    ensures r.Some? <==> AllConnected(E, n)
    ensures r.Some? ==> MinimumSpanningForest(tree, E) && r.value == Weight(tree)
  {
    var cost := 0;
    hide Growing, Frontier, Offers, Weight, AllConnected, MinimumSpanningForest, Entries, SeenSet, Describes;
    DescribesParts(g, n, E);
    var pq: Heap := multiset{(0, 0)};
    var seen: seq<nat> := seq(n, _ => 0);
    NothingYet(seen, E);
    tree := {};
    for i := 0 to n
      invariant |seen| == n && |SeenSet(seen)| == i
      invariant Offers(pq, tree, SeenSet(seen), E, n) && (i == 0 ==> tree == {})
      invariant cost == Weight(tree)
    {
      while true
        invariant |seen| == n && |SeenSet(seen)| == i
        invariant Offers(pq, tree, SeenSet(seen), E, n) && (i == 0 ==> tree == {})
        invariant cost == Weight(tree)
        decreases |pq|
      {
        if |pq| == 0 {
          NoWayOut(pq, tree, SeenSet(seen), E, n);
          return None, {};
        }
        ghost var before, S := pq, SeenSet(seen);
        var top;
        top, pq := Pop(pq);
        var w, v := top.0, top.1;
        NodeOnTop(before, tree, S, E, n, top);
        Mark(seen, v);
        if seen[v] != 0 {
          DropSeen(before, tree, S, E, n, top);
          seen := seen[v := seen[v] + 1];
          continue;
        }
        seen := seen[v := seen[v] + 1];
        ghost var grown := TakeLightest(before, tree, S, E, n, top);
        cost := cost + w;
        PushNeighbours(before, tree, S, E, n, g, top, grown, seen);
        pq := PushAll(pq, g[v], seen);
        tree := grown;
        break;
      }
    }
    Complete(pq, tree, SeenSet(seen), E, n);
    r := Some(cost);
  }

  // ---------------------------------------------------------------------------------------
  // Kruskal

  // The order std::sort leaves the rows (weight, u, v) in.
  ghost predicate RowsSorted(q: seq<Edge>) {
    forall i, j :: 0 <= i < j < |q| ==>
      || q[i].w < q[j].w
      || (q[i].w == q[j].w && (q[i].u < q[j].u || (q[i].u == q[j].u && q[i].v <= q[j].v)))
  }

  // The ancestor of x. Every node visited is pointed at the ancestor, and every second one is
  // skipped. The rank of a node exists only in the proof.
  method FindAncestor(p: array<nat>, x: nat, ghost rank: seq<nat>) returns (root: nat)
    requires Ranked(p[..], rank) && x < p.Length
    modifies p
    ensures Ranked(p[..], rank) && Labels(p[..], rank) == old(Labels(p[..], rank))
    ensures root == Labels(p[..], rank)[x] && root < p.Length && p[x] == root && p[root] == root
    ensures forall y :: 0 <= y < p.Length ==> p[y] == old(p[y]) || p[y] == root
    decreases Height(rank, x)
  {
    if x == p[x] {
      return x;
    }
    hide Ranked, Labels, RootOf;
    Grandparent(p[..], rank, x);
    root := FindAncestor(p, p[p[x]], rank);
    StillBelow(p[..], rank, x);
    Redirect(p[..], rank, x, root);
    ghost var before := p[..];
    p[x] := root;
    assert p[..] == before[x := root];
  }

  lemma Grandparent(p: seq<nat>, rank: seq<nat>, x: nat)
    requires Ranked(p, rank) && x < |p| && p[x] != x
    ensures p[x] < |p| && p[p[x]] < |p|
    ensures Height(rank, p[p[x]]) < Height(rank, x) && Labels(p, rank)[p[p[x]]] == Labels(p, rank)[x]
    ensures Labels(p, rank)[x] != x
  {
    assert RootOf(p, rank, x) == RootOf(p, rank, p[x]) == RootOf(p, rank, p[p[x]]);
  }

  lemma StillBelow(p: seq<nat>, rank: seq<nat>, x: nat)
    requires Ranked(p, rank) && x < |p| && Labels(p, rank)[x] != x
    ensures p[x] != x
    ensures var r := Labels(p, rank)[x]; r < |p| && p[r] == r && rank[x] < rank[r] && Labels(p, rank)[r] == r
  {
  }

  // One ancestor under another, whose rank in the proof is raised above it.
  method Link(p: array<nat>, ru: nat, rv: nat, ghost rank: seq<nat>) returns (ghost rank': seq<nat>)
    requires Ranked(p[..], rank) && ru < p.Length && rv < p.Length && ru != rv && p[ru] == ru && p[rv] == rv
    modifies p
    ensures p[..] == old(p[..])[ru := rv]
    ensures Ranked(p[..], rank') && United(old(Labels(p[..], rank)), Labels(p[..], rank'), ru, rv, rv)
  {
    ghost var newRank := if rank[ru] < rank[rv] then rank[rv] else rank[ru] + 1;
    Unite(p[..], rank, ru, rv, newRank);
    ghost var before := p[..];
    p[ru] := rv;
    assert p[..] == before[ru := rv];
    rank' := rank[rv := newRank];
  }

  method Kruskal(edges: seq<Edge>, q: seq<Edge>, n: nat) returns (cost: int, ghost forest: set<Edge>)
    requires InRange(EdgeSet(edges), n)
    requires multiset(q) == multiset(edges) && RowsSorted(q)
    ensures MinimumSpanningForest(forest, EdgeSet(edges)) && cost == Weight(forest)
  {
    hide Ranked, RootOf, Roots, Acyclic, Connected, SpanningForest, MinimumSpanningForest, Weight, Agrees, Greedy;
    SameEdges(q, edges);
    cost, forest := 0, {};
    var p := new nat[n](i => i);
    ghost var rank := seq(n, _ => 0);
    OwnAncestors(p[..], rank);
    AgreesAtFirst(Labels(p[..], rank), forest);
    GreedyAtFirst(q);
    for k := 0 to |q|
      invariant Ranked(p[..], rank) && fresh(p)
      invariant Agrees(Labels(p[..], rank), forest)
      invariant Greedy(forest, q, k) && cost == Weight(forest)
    {
      var w, u, v := q[k].w, q[k].u, q[k].v;
      assert q[k] in EdgeSet(edges);
      ghost var labels := Labels(p[..], rank);
      var ru := FindAncestor(p, u, rank);
      var rv := FindAncestor(p, v, rank);
      SameLabel(labels, forest, u, v);
      if ru == rv {
        SkipEdge(forest, q, k);
        continue;
      }
      rank := Link(p, ru, rv, rank);
      AgreesWhenJoined(labels, Labels(p[..], rank), forest, q[k], rv);
      TakeEdge(forest, q, k);
      forest := forest + {q[k]};
      cost := cost + w;
    }
    GreedyIsMinimum(forest, q, n);
  }

  lemma OwnAncestors(p: seq<nat>, rank: seq<nat>)
    requires |rank| == |p| && forall x :: 0 <= x < |p| ==> p[x] == x
    ensures Ranked(p, rank) && Labels(p, rank) == p
  {
  }

  // ---------------------------------------------------------------------------------------
  // One answer

  // Both algorithms on one connected graph, given as an edge list, as the program's main does.
  method BothCosts(edges: seq<Edge>, q: seq<Edge>, n: nat) returns (prim: Option<int>, kruskal: int)
    requires InRange(EdgeSet(edges), n)
    requires multiset(q) == multiset(edges) && RowsSorted(q)
    ensures prim.Some? <==> AllConnected(EdgeSet(edges), n)
    ensures prim.Some? ==> prim.value == kruskal
    ensures exists F :: MinimumSpanningForest(F, EdgeSet(edges)) && kruskal == Weight(F)
  {
    var g: Adjacency := seq(n, _ => []);
    for k := 0 to |edges|
      invariant Describes(g, n, EdgeSet(edges[..k]))
    {
      var e := edges[k];
      AddBothEnds(g, n, edges, k);
      g := g[e.u := g[e.u] + [(e.v, e.w)]];
      g := g[e.v := g[e.v] + [(e.u, e.w)]];
    }
    assert edges[..|edges|] == edges;
    ghost var tree, forest;
    prim, tree := Prim(g, n, EdgeSet(edges));
    kruskal, forest := Kruskal(edges, q, n);
  }

  lemma AddBothEnds(g: Adjacency, n: nat, edges: seq<Edge>, k: nat)
    requires k < |edges| && Describes(g, n, EdgeSet(edges[..k])) && InRange(EdgeSet(edges), n)
    ensures var e := edges[k];
      && e.u < n && e.v < n
      && var g1 := g[e.u := g[e.u] + [(e.v, e.w)]];
         Describes(g1[e.v := g1[e.v] + [(e.u, e.w)]], n, EdgeSet(edges[..k + 1]))
  {
    var e := edges[k];
    assert e in EdgeSet(edges);
    var g1 := g[e.u := g[e.u] + [(e.v, e.w)]];
    var g2 := g1[e.v := g1[e.v] + [(e.u, e.w)]];
    assert EdgeSet(edges[..k + 1]) == EdgeSet(edges[..k]) + {e};
    forall x, m: (nat, int) | 0 <= x < n && m in g2[x] ensures m.0 < n && EdgeBetween(EdgeSet(edges[..k + 1]), x, m.0, m.1) {
      assert m in g[x] || (x == e.u && m == (e.v, e.w)) || (x == e.v && m == (e.u, e.w));
    }
  }
}
