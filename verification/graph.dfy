// misc/struct/graph.cpp: Kruskal's algorithm over the disjoint sets of misc/struct/disjoint_set.cpp.
module Graphs {
  import opened SpanningForests
  import opened ParentForests
  import opened DisjointSets
  import opened KruskalSteps

  class Graph {
    var nodes_num: nat
    var edge_list: seq<Edge>

    constructor (edges: seq<Edge>, nodes: nat)
      ensures edge_list == edges && nodes_num == nodes
    {
      edge_list, nodes_num := edges, nodes;
    }

    // The endpoints of every edge are nodes of the graph.
    ghost predicate Valid()
      reads this
    {
      InRange(EdgeSet(edge_list), nodes_num)
    }

    // edges_sorted is what std::sort leaves: the edges ordered by weight, equal weights in any order.
    method MinSpanningTreeKruskal(edges_sorted: seq<Edge>) returns (cost: int, ghost forest: set<Edge>)
      requires Valid()
      requires multiset(edges_sorted) == multiset(edge_list) && SortedByWeight(edges_sorted)
      ensures MinimumSpanningForest(forest, EdgeSet(edge_list)) && cost == Weight(forest)
    {
      hide Ranked, RootOf, Roots, Acyclic, Connected, SpanningForest, MinimumSpanningForest, Weight, Agrees, Greedy;
      SameEdges(edges_sorted, edge_list);
      cost, forest := 0, {};
      var disjoint_set := AllApart(nodes_num);
      AgreesAtFirst(disjoint_set.Sets(), forest);
      GreedyAtFirst(edges_sorted);
      for k := 0 to |edges_sorted|
        invariant disjoint_set.Valid() && |disjoint_set.parent| == nodes_num && fresh(disjoint_set)
        invariant Agrees(disjoint_set.Sets(), forest)
        invariant Greedy(forest, edges_sorted, k) && cost == Weight(forest)
      {
        var u, v, w := edges_sorted[k].u, edges_sorted[k].v, edges_sorted[k].w;
        ghost var labels := disjoint_set.Sets();
        assert edges_sorted[k] in EdgeSet(edge_list);
        var pu := disjoint_set.Find(u);
        var pv := disjoint_set.Find(v);
        SameLabel(labels, forest, u, v);
        if pu == pv {
          SkipEdge(forest, edges_sorted, k);
          continue;
        }
        ghost var winner := disjoint_set.Winner(u, v);
        var _ := disjoint_set.Merge(u, v);
        AgreesWhenJoined(labels, disjoint_set.Sets(), forest, edges_sorted[k], winner);
        TakeEdge(forest, edges_sorted, k);
        forest := forest + {edges_sorted[k]};
        cost := cost + w;
      }
      GreedyIsMinimum(forest, edges_sorted, nodes_num);
    }
  }

  // One set for each of the nodes 0 to n - 1.
  method AllApart(n: nat) returns (sets: DisjointSet)
    ensures fresh(sets) && sets.Valid() && |sets.parent| == n
    ensures forall x :: 0 <= x < n ==> sets.Sets()[x] == x
  {
    sets := new DisjointSet();
    for i := 0 to n
      invariant fresh(sets) && sets.Valid() && |sets.parent| == i
      invariant forall x :: 0 <= x < i ==> sets.Sets()[x] == x
    {
      sets.MakeSet(i);
    }
  }
}
