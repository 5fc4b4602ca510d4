// Spanning forests of weighted undirected graphs, and what makes one of minimum weight.
//
// A graph is a set of edges. An edge list may repeat an edge; equal copies join the same two nodes
// at the same weight, no forest holds two of them, and so the set of its edges decides everything
// said here. Parallel edges of different weight, and the two orientations of one edge, are
// different edges that no forest holds together.
module SpanningForests {
  import opened Collections

  datatype Edge = Edge(u: nat, v: nat, w: int)

  // ---------------------------------------------------------------------------------------
  // Paths and connection

  ghost predicate Joins(e: Edge, x: nat, y: nat) {
    (e.u == x && e.v == y) || (e.u == y && e.v == x)
  }

  ghost predicate Linked(F: set<Edge>, x: nat, y: nat) {
    exists e :: e in F && Joins(e, x, y)
  }

  ghost predicate IsPath(F: set<Edge>, p: seq<nat>) {
    |p| > 0 && forall i :: 0 <= i < |p| - 1 ==> Linked(F, p[i], p[i + 1])
  }

  ghost predicate Connects(F: set<Edge>, p: seq<nat>, x: nat, y: nat) {
    IsPath(F, p) && p[0] == x && p[|p| - 1] == y
  }

  ghost predicate Connected(F: set<Edge>, x: nat, y: nat) {
    exists p :: Connects(F, p, x, y)
  }

  lemma ConnectedReflexive(F: set<Edge>, x: nat)
    ensures Connected(F, x, x)
  {
    assert Connects(F, [x], x, x);
  }

  lemma ConnectedByEdge(F: set<Edge>, e: Edge)
    requires e in F
    ensures Connected(F, e.u, e.v) && Connected(F, e.v, e.u)
  {
    assert Joins(e, e.u, e.v) && Joins(e, e.v, e.u);
    assert Connects(F, [e.u, e.v], e.u, e.v) && Connects(F, [e.v, e.u], e.v, e.u);
  }

  lemma ConnectedTransitive(F: set<Edge>, x: nat, y: nat, z: nat)
    requires Connected(F, x, y) && Connected(F, y, z)
    ensures Connected(F, x, z)
  {
    var p :| Connects(F, p, x, y);
    var q :| Connects(F, q, y, z);
    var r := p + q[1..];
    forall i | 0 <= i < |r| - 1 ensures Linked(F, r[i], r[i + 1]) {
      if i >= |p| - 1 {
        assert r[i] == q[i - |p| + 1] && r[i + 1] == q[i - |p| + 2];
      }
    }
    assert Connects(F, r, x, z);
  }

  lemma ConnectedSymmetric(F: set<Edge>, x: nat, y: nat)
    requires Connected(F, x, y)
    ensures Connected(F, y, x)
  {
    var p :| Connects(F, p, x, y);
    var r := seq(|p|, i requires 0 <= i < |p| => p[|p| - 1 - i]);
    forall i | 0 <= i < |r| - 1 ensures Linked(F, r[i], r[i + 1]) {
      var j := |p| - 2 - i;
      assert r[i] == p[j + 1] && r[i + 1] == p[j];
      assert Linked(F, p[j], p[j + 1]);
      var e :| e in F && Joins(e, p[j], p[j + 1]);
      assert Joins(e, r[i], r[i + 1]);
    }
    assert Connects(F, r, y, x);
  }

  // If every edge of F has connected ends in G, then so has every path of F.
  lemma ConnectedIn(F: set<Edge>, G: set<Edge>, x: nat, y: nat)
    requires forall e :: e in F ==> Connected(G, e.u, e.v)
    requires Connected(F, x, y)
    ensures Connected(G, x, y)
  {
    var p :| Connects(F, p, x, y);
    PathIn(F, G, p);
  }

  lemma {:induction false} PathIn(F: set<Edge>, G: set<Edge>, p: seq<nat>)
    requires forall e :: e in F ==> Connected(G, e.u, e.v)
    requires IsPath(F, p)
    ensures Connected(G, p[0], p[|p| - 1])
  {
    if |p| == 1 {
      ConnectedReflexive(G, p[0]);
    } else {
      var q := p[..|p| - 1];
      assert forall i :: 0 <= i < |q| - 1 ==> Linked(F, p[i], p[i + 1]);
      PathIn(F, G, q);
      var e :| e in F && Joins(e, p[|p| - 2], p[|p| - 1]);
      ConnectedSymmetric(G, e.u, e.v);
      ConnectedTransitive(G, p[0], p[|p| - 2], p[|p| - 1]);
    }
  }

  lemma ConnectedMonotone(F: set<Edge>, G: set<Edge>, x: nat, y: nat)
    requires F <= G && Connected(F, x, y)
    ensures Connected(G, x, y)
  {
    forall e | e in F ensures Connected(G, e.u, e.v) {
      ConnectedByEdge(G, e);
    }
    ConnectedIn(F, G, x, y);
  }

  // What a new edge connects.
  ghost predicate ConnectedWith(F: set<Edge>, e: Edge, x: nat, y: nat) {
    || Connected(F, x, y)
    || (Connected(F, x, e.u) && Connected(F, e.v, y))
    || (Connected(F, x, e.v) && Connected(F, e.u, y))
  }

  lemma AddEdge(F: set<Edge>, e: Edge, x: nat, y: nat)
    ensures Connected(F + {e}, x, y) <==> ConnectedWith(F, e, x, y)
  {
    var G := F + {e};
    if ConnectedWith(F, e, x, y) {
      ConnectedByEdge(G, e);
      if Connected(F, x, y) {
        ConnectedMonotone(F, G, x, y);
      } else if Connected(F, x, e.u) && Connected(F, e.v, y) {
        ConnectedMonotone(F, G, x, e.u);
        ConnectedMonotone(F, G, e.v, y);
        ConnectedTransitive(G, x, e.u, e.v);
        ConnectedTransitive(G, x, e.v, y);
      } else {
        ConnectedMonotone(F, G, x, e.v);
        ConnectedMonotone(F, G, e.u, y);
        ConnectedTransitive(G, x, e.v, e.u);
        ConnectedTransitive(G, x, e.u, y);
      }
    }
    if Connected(G, x, y) {
      var p :| Connects(G, p, x, y);
      PathWith(F, e, p);
    }
  }

  lemma {:induction false} PathWith(F: set<Edge>, e: Edge, p: seq<nat>)
    requires IsPath(F + {e}, p)
    ensures ConnectedWith(F, e, p[0], p[|p| - 1])
  {
    if |p| == 1 {
      ConnectedReflexive(F, p[0]);
    } else {
      var q, y, z := p[..|p| - 1], p[|p| - 2], p[|p| - 1];
      assert forall i :: 0 <= i < |q| - 1 ==> Linked(F + {e}, p[i], p[i + 1]);
      PathWith(F, e, q);
      var d :| d in F + {e} && Joins(d, y, z);
      StepWith(F, e, p[0], y, z, d);
    }
  }

  lemma StepWith(F: set<Edge>, e: Edge, x: nat, y: nat, z: nat, d: Edge)
    requires ConnectedWith(F, e, x, y) && d in F + {e} && Joins(d, y, z)
    ensures ConnectedWith(F, e, x, z)
  {
    if d in F {
      ConnectedByEdge(F, d);
      forall a | Connected(F, a, y) ensures Connected(F, a, z) {
        ConnectedTransitive(F, a, y, z);
      }
    } else {
      ConnectedReflexive(F, z);
    }
  }

  // ---------------------------------------------------------------------------------------
  // Forests

  ghost predicate Acyclic(F: set<Edge>) {
    forall e :: e in F ==> !Connected(F - {e}, e.u, e.v)
  }

  // A maximal acyclic set of the edges of E.
  ghost predicate SpanningForest(F: set<Edge>, E: set<Edge>) {
    && F <= E && Acyclic(F)
    && forall e :: e in E && e !in F ==> !Acyclic(F + {e})
  }

  ghost predicate InRange(F: set<Edge>, n: nat) {
    forall e :: e in F ==> e.u < n && e.v < n
  }

  lemma AcyclicSubset(F: set<Edge>, G: set<Edge>)
    requires Acyclic(G) && F <= G
    ensures Acyclic(F)
  {
    forall e | e in F ensures !Connected(F - {e}, e.u, e.v) {
      if Connected(F - {e}, e.u, e.v) {
        ConnectedMonotone(F - {e}, G - {e}, e.u, e.v);
      }
    }
  }

  // An edge can join a forest exactly when its ends are not connected yet.
  lemma AcyclicAdd(F: set<Edge>, e: Edge)
    requires Acyclic(F) && e !in F
    ensures Acyclic(F + {e}) <==> !Connected(F, e.u, e.v)
  {
    assert F + {e} - {e} == F;
    if !Connected(F, e.u, e.v) {
      forall f | f in F ensures !Connected(F + {e} - {f}, f.u, f.v) {
        var H := F - {f};
        assert F + {e} - {f} == H + {e} && H + {f} == F;
        if Connected(H + {e}, f.u, f.v) {
          AddEdge(H, e, f.u, f.v);
          if Connected(H, f.u, e.u) && Connected(H, e.v, f.v) {
            ConnectedSymmetric(H, f.u, e.u);
            ConnectedSymmetric(H, e.v, f.v);
          } else {
            ConnectedSymmetric(H, f.u, e.v);
            ConnectedSymmetric(H, e.u, f.v);
          }
          ConnectedReflexive(H, e.u);
          AddEdge(H, f, e.u, e.v);
          assert false;
        }
      }
    }
  }

  lemma SpanningForestConnects(F: set<Edge>, E: set<Edge>, e: Edge)
    requires SpanningForest(F, E) && e in E
    ensures Connected(F, e.u, e.v)
  {
    if e in F {
      ConnectedByEdge(F, e);
    } else {
      AcyclicAdd(F, e);
    }
  }

  // ---------------------------------------------------------------------------------------
  // Counting components: each has one least node

  ghost predicate IsLeast(F: set<Edge>, x: nat) {
    forall y: nat :: y < x ==> !Connected(F, x, y)
  }

  ghost function Leasts(F: set<Edge>, n: nat): set<nat> {
    set x: nat | x < n && IsLeast(F, x)
  }

  lemma LeastOf(F: set<Edge>, x: nat) returns (a: nat)
    ensures a <= x && IsLeast(F, a) && Connected(F, x, a) && Connected(F, a, x)
  {
    if IsLeast(F, x) {
      ConnectedReflexive(F, x);
      a := x;
    } else {
      var y: nat :| y < x && Connected(F, x, y);
      a := LeastOf(F, y);
      ConnectedTransitive(F, x, y, a);
      ConnectedSymmetric(F, x, a);
    }
  }

  lemma LeastUnique(F: set<Edge>, a: nat, b: nat)
    requires IsLeast(F, a) && IsLeast(F, b) && Connected(F, a, b)
    ensures a == b
  {
    ConnectedSymmetric(F, a, b);
  }

  // Joining two components loses exactly one least node.
  lemma JoinLosesOne(F: set<Edge>, e: Edge, n: nat)
    requires e.u < n && e.v < n && !Connected(F, e.u, e.v)
    ensures |Leasts(F + {e}, n)| == |Leasts(F, n)| - 1
  {
    var a := LeastOf(F, e.u);
    var b := LeastOf(F, e.v);
    if a == b {
      ConnectedTransitive(F, e.u, a, e.v);
      assert false;
    }
    var c, d := if a < b then a else b, if a < b then b else a;
    AddEdge(F, e, d, c);
    forall x: nat | x < n ensures IsLeast(F + {e}, x) <==> IsLeast(F, x) && x != d {
      JoinedLeast(F, e, a, b, x);
    }
    assert Leasts(F + {e}, n) == Leasts(F, n) - {d};
  }

  lemma JoinedLeast(F: set<Edge>, e: Edge, a: nat, b: nat, x: nat)
    requires IsLeast(F, a) && Connected(F, e.u, a) && Connected(F, a, e.u)
    requires IsLeast(F, b) && Connected(F, e.v, b) && Connected(F, b, e.v)
    requires a != b
    ensures IsLeast(F + {e}, x) <==> IsLeast(F, x) && x != if a < b then b else a
  {
    var c, d := if a < b then a else b, if a < b then b else a;
    if x == d {
      AddEdge(F, e, d, c);
    } else if IsLeast(F, x) {
      forall y: nat | y < x ensures !Connected(F + {e}, x, y) {
        AddEdge(F, e, x, y);
        if Connected(F, x, e.u) && Connected(F, e.v, y) {
          ConnectedTransitive(F, x, e.u, a);
          LeastUnique(F, x, a);
          ConnectedTransitive(F, b, e.v, y);
        } else if Connected(F, x, e.v) && Connected(F, e.u, y) {
          ConnectedTransitive(F, x, e.v, b);
          LeastUnique(F, x, b);
          ConnectedTransitive(F, a, e.u, y);
        }
      }
    } else {
      var y: nat :| y < x && Connected(F, x, y);
      ConnectedMonotone(F, F + {e}, x, y);
    }
  }

  lemma {:induction false} NoEdgesNoLinks(F: set<Edge>, n: nat)
    requires F == {}
    ensures |Leasts(F, n)| == n
  {
    if n > 0 {
      NoEdgesNoLinks(F, n - 1);
      var x: nat := n - 1;
      forall y: nat | y < x ensures !Connected(F, x, y) {
        forall p ensures !Connects(F, p, x, y) {
          assert |p| > 1 ==> !Linked(F, p[0], p[1]);
        }
      }
      assert Leasts(F, n) == Leasts(F, n - 1) + {n - 1};
    }
  }

  // In a forest on n nodes, edges and components add up to n.
  lemma {:induction false} ForestCount(F: set<Edge>, n: nat)
    requires Acyclic(F) && InRange(F, n)
    ensures |F| + |Leasts(F, n)| == n
  {
    if F == {} {
      NoEdgesNoLinks(F, n);
    } else {
      var e :| e in F;
      var G := F - {e};
      AcyclicSubset(G, F);
      ForestCount(G, n);
      JoinLosesOne(G, e, n);
      assert G + {e} == F;
    }
  }

  // A forest whose edges G connects has no more edges than the forest G.
  lemma ForestSizes(F: set<Edge>, G: set<Edge>, n: nat)
    requires Acyclic(F) && Acyclic(G) && InRange(F, n) && InRange(G, n)
    requires forall e :: e in F ==> Connected(G, e.u, e.v)
    ensures |F| <= |G|
  {
    ForestCount(F, n);
    ForestCount(G, n);
    forall x | x in Leasts(G, n) ensures x in Leasts(F, n) {
      forall y: nat | y < x ensures !Connected(F, x, y) {
        if Connected(F, x, y) {
          ConnectedIn(F, G, x, y);
        }
      }
    }
    SubsetSize(Leasts(G, n), Leasts(F, n));
  }

  // ---------------------------------------------------------------------------------------
  // Weights, added up in any order (WeightRemove)

  ghost function Weight(F: set<Edge>): int {
    if F == {} then 0
    else
      var e :| e in F;
      e.w + Weight(F - {e})
  }

  lemma {:induction false} WeightRemove(F: set<Edge>, e: Edge)
    requires e in F
    ensures Weight(F) == e.w + Weight(F - {e})
  {
    var d :| d in F && Weight(F) == d.w + Weight(F - {d});
    if d != e {
      WeightRemove(F - {d}, e);
      WeightRemove(F - {e}, d);
      assert F - {d} - {e} == F - {e} - {d};
    }
  }

  ghost predicate MinimumSpanningForest(F: set<Edge>, E: set<Edge>) {
    && SpanningForest(F, E)
    && forall T :: SpanningForest(T, E) ==> Weight(F) <= Weight(T)
  }

  // The edges of F no heavier than w.
  ghost function UpTo(F: set<Edge>, w: int): set<Edge> {
    set e | e in F && e.w <= w
  }

  // Every edge of E has its ends connected by edges of F no heavier than itself.
  ghost predicate Light(F: set<Edge>, E: set<Edge>) {
    F <= E && forall e :: e in E ==> Connected(UpTo(F, e.w), e.u, e.v)
  }

  lemma HeaviestOf(F: set<Edge>) returns (e: Edge)
    requires F != {}
    ensures e in F && forall f :: f in F ==> f.w <= e.w
  {
    e :| e in F;
    if F != {e} {
      var f := HeaviestOf(F - {e});
      if f.w > e.w { e := f; }
    }
  }

  // If at every threshold T has at most as many edges as K, and as many in all, K weighs no more.
  lemma {:induction false} LighterAtEveryThreshold(K: set<Edge>, T: set<Edge>)
    requires |K| == |T|
    requires forall w :: |UpTo(T, w)| <= |UpTo(K, w)|
    ensures Weight(K) <= Weight(T)
  {
    if K == {} {
      assert T == {};
    } else {
      var k := HeaviestOf(K);
      var t := HeaviestOf(T);
      assert UpTo(T, t.w) == T;
      if t.w < k.w {
        SubsetSize(UpTo(K, t.w), K - {k});
        assert false;
      }
      var K', T' := K - {k}, T - {t};
      forall w ensures |UpTo(T', w)| <= |UpTo(K', w)| {
        if w < k.w {
          assert UpTo(T', w) == UpTo(T, w) && UpTo(K', w) == UpTo(K, w);
        } else {
          assert UpTo(K', w) == K';
          SubsetSize(UpTo(T', w), T');
        }
      }
      LighterAtEveryThreshold(K', T');
      WeightRemove(K, k);
      WeightRemove(T, t);
    }
  }

  // The optimality theorem both Kruskal's and Prim's algorithms rest on.
  lemma LightForestIsMinimum(K: set<Edge>, E: set<Edge>, n: nat)
    requires InRange(E, n) && Acyclic(K) && Light(K, E)
    ensures MinimumSpanningForest(K, E)
  {
    forall e | e in E ensures Connected(K, e.u, e.v) {
      ConnectedMonotone(UpTo(K, e.w), K, e.u, e.v);
    }
    forall e | e in E && e !in K ensures !Acyclic(K + {e}) {
      AcyclicAdd(K, e);
    }
    forall T | SpanningForest(T, E) ensures Weight(K) <= Weight(T) {
      forall w ensures |UpTo(T, w)| <= |UpTo(K, w)| {
        AcyclicSubset(UpTo(T, w), T);
        AcyclicSubset(UpTo(K, w), K);
        forall e | e in UpTo(T, w) ensures Connected(UpTo(K, w), e.u, e.v) {
          ConnectedMonotone(UpTo(K, e.w), UpTo(K, w), e.u, e.v);
        }
        ForestSizes(UpTo(T, w), UpTo(K, w), n);
      }
      ForestSizes(T, K, n);
      forall e | e in K ensures Connected(T, e.u, e.v) {
        SpanningForestConnects(T, E, e);
      }
      ForestSizes(K, T, n);
      LighterAtEveryThreshold(K, T);
    }
  }
}
