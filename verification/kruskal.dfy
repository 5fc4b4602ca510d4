// Kruskal's greedy choice, apart from how the sets of nodes are kept.
module KruskalSteps {
  import opened SpanningForests
  import opened ParentForests

  ghost function EdgeSet(edges: seq<Edge>): set<Edge> {
    set e | e in edges
  }

  ghost predicate SortedByWeight(edges: seq<Edge>) {
    forall i, j :: 0 <= i < j < |edges| ==> edges[i].w <= edges[j].w
  }

  // Two nodes have the same label exactly when F connects them.
  ghost predicate Agrees(labels: seq<nat>, F: set<Edge>) {
    forall x: nat, y: nat :: x < |labels| && y < |labels| ==> (labels[x] == labels[y] <==> Connected(F, x, y))
  }

  lemma AgreesAtFirst(labels: seq<nat>, F: set<Edge>)
    requires F == {} && forall x :: 0 <= x < |labels| ==> labels[x] == x
    ensures Agrees(labels, F)
  {
    forall x: nat, y: nat | x < |labels| && y < |labels| ensures labels[x] == labels[y] <==> Connected(F, x, y) {
      ConnectedReflexive(F, x);
      forall p | x != y ensures !Connects(F, p, x, y) {
        assert |p| > 1 ==> !Linked(F, p[0], p[1]);
      }
    }
  }

  lemma AgreesWhenJoined(labels: seq<nat>, labels': seq<nat>, F: set<Edge>, e: Edge, c: nat)
    requires Agrees(labels, F) && e.u < |labels| && e.v < |labels| && labels[e.u] != labels[e.v]
    requires United(labels, labels', labels[e.u], labels[e.v], c)
    ensures Agrees(labels', F + {e})
  {
    forall x: nat, y: nat | x < |labels'| && y < |labels'|
      ensures labels'[x] == labels'[y] <==> Connected(F + {e}, x, y)
    {
      AddEdge(F, e, x, y);
      assert Connected(F, x, y) <==> labels[x] == labels[y];
      assert Connected(F, x, e.u) <==> labels[x] == labels[e.u];
      assert Connected(F, x, e.v) <==> labels[x] == labels[e.v];
      assert Connected(F, e.u, y) <==> labels[y] == labels[e.u];
      assert Connected(F, e.v, y) <==> labels[y] == labels[e.v];
    }
  }

  // The forest after the first k edges: acyclic, made of those edges, and connecting the ends of
  // each of them by edges no heavier than it.
  ghost predicate Greedy(F: set<Edge>, edges: seq<Edge>, k: nat) {
    && k <= |edges| && Acyclic(F)
    && (forall e :: e in F ==> e in edges[..k])
    && forall j :: 0 <= j < k ==> Connected(UpTo(F, edges[j].w), edges[j].u, edges[j].v)
  }

  lemma SkipEdge(F: set<Edge>, edges: seq<Edge>, k: nat)
    requires SortedByWeight(edges) && k < |edges| && Greedy(F, edges, k)
    requires Connected(F, edges[k].u, edges[k].v)
    ensures Greedy(F, edges, k + 1)
  {
    assert UpTo(F, edges[k].w) == F;
    assert forall e :: e in F ==> e in edges[..k + 1];
  }

  lemma TakeEdge(F: set<Edge>, edges: seq<Edge>, k: nat)
    requires SortedByWeight(edges) && k < |edges| && Greedy(F, edges, k)
    requires !Connected(F, edges[k].u, edges[k].v)
    ensures Greedy(F + {edges[k]}, edges, k + 1)
    ensures Weight(F + {edges[k]}) == Weight(F) + edges[k].w
  {
    var e := edges[k];
    if e in F {
      ConnectedByEdge(F, e);
      assert false;
    }
    AcyclicAdd(F, e);
    WeightRemove(F + {e}, e);
    assert F + {e} - {e} == F;
    assert UpTo(F + {e}, e.w) == F + {e};
    ConnectedByEdge(F + {e}, e);
    forall j | 0 <= j < k ensures Connected(UpTo(F + {e}, edges[j].w), edges[j].u, edges[j].v) {
      ConnectedMonotone(UpTo(F, edges[j].w), UpTo(F + {e}, edges[j].w), edges[j].u, edges[j].v);
    }
    assert forall d :: d in F + {e} ==> d in edges[..k + 1];
  }

  lemma GreedyIsMinimum(F: set<Edge>, edges: seq<Edge>, n: nat)
    requires Greedy(F, edges, |edges|) && InRange(EdgeSet(edges), n)
    ensures MinimumSpanningForest(F, EdgeSet(edges))
  {
    forall e | e in EdgeSet(edges) ensures Connected(UpTo(F, e.w), e.u, e.v) {
      var j :| 0 <= j < |edges| && edges[j] == e;
    }
    LightForestIsMinimum(F, EdgeSet(edges), n);
  }

  lemma SameEdges(a: seq<Edge>, b: seq<Edge>)
    requires multiset(a) == multiset(b)
    ensures EdgeSet(a) == EdgeSet(b)
  {
    assert forall e :: e in a <==> e in multiset(a);
    assert forall e :: e in b <==> e in multiset(b);
  }

  lemma GreedyAtFirst(edges: seq<Edge>)
    ensures Greedy({}, edges, 0) && Weight({}) == 0
  {
  }

  lemma SameLabel(labels: seq<nat>, F: set<Edge>, x: nat, y: nat)
    requires Agrees(labels, F) && x < |labels| && y < |labels|
    ensures labels[x] == labels[y] <==> Connected(F, x, y)
  {
  }
}
