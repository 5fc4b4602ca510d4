// Disjoint sets as trees of parent links.
//
// ParentForests holds what is true of any parent vector whose links go strictly up in rank;
// DisjointSets is the structure of misc/struct/disjoint_set.cpp. The parent vector of
// struct/minmumSpanningTree.cc, which keeps no ranks, uses ParentForests with a rank that
// exists in the proof only.
module ParentForests {

  // Links stay inside the vector and rank strictly increases along every link to another node.
  ghost predicate Ranked(parent: seq<nat>, rank: seq<nat>) {
    && |rank| == |parent|
    && forall x :: 0 <= x < |parent| ==>
         parent[x] < |parent| && (parent[x] != x ==> rank[x] < rank[parent[x]])
  }

  ghost function Top(rank: seq<nat>): (t: nat)
    ensures forall i :: 0 <= i < |rank| ==> rank[i] <= t
  {
    if rank == [] then 0
    else
      var t := Top(rank[1..]);
      assert forall i :: 0 < i < |rank| ==> rank[i] == rank[1..][i - 1];
      if rank[0] > t then rank[0] else t
  }

  // How far below the highest rank a node is: what Find's recursion decreases.
  ghost function Height(rank: seq<nat>, x: nat): nat
    requires x < |rank|
  {
    Top(rank) - rank[x]
  }

  // The node at the end of the links from x, which stands for x's set.
  ghost function RootOf(parent: seq<nat>, rank: seq<nat>, x: nat): (r: nat)
    requires Ranked(parent, rank) && x < |parent|
    ensures r < |parent| && parent[r] == r
    ensures rank[x] <= rank[r] && (r != x ==> rank[x] < rank[r])
    decreases Height(rank, x)
  {
    if parent[x] == x then x else RootOf(parent, rank, parent[x])
  }

  // The nodes from x up to its root.
  ghost function Path(parent: seq<nat>, rank: seq<nat>, x: nat): (p: seq<nat>)
    requires Ranked(parent, rank) && x < |parent|
    ensures forall y :: y in p ==> y < |parent| && RootOf(parent, rank, y) == RootOf(parent, rank, x)
    decreases Height(rank, x)
  {
    if parent[x] == x then [x] else [x] + Path(parent, rank, parent[x])
  }

  ghost function Labels(parent: seq<nat>, rank: seq<nat>): seq<nat>
    requires Ranked(parent, rank)
  {
    seq(|parent|, x requires 0 <= x < |parent| => RootOf(parent, rank, x))
  }

  // The labels after the sets labelled a and b have become one set labelled c.
  ghost predicate United(labels: seq<nat>, labels': seq<nat>, a: nat, b: nat, c: nat) {
    && |labels'| == |labels| && (c == a || c == b)
    && forall x :: 0 <= x < |labels| ==>
         labels'[x] == if labels[x] == a || labels[x] == b then c else labels[x]
  }

  ghost function Roots(parent: seq<nat>): set<nat> {
    set x | 0 <= x < |parent| && parent[x] == x
  }

  // Pointing a node at another member of its set, higher up, changes no set.
  lemma Redirect(parent: seq<nat>, rank: seq<nat>, x: nat, y: nat)
    requires Ranked(parent, rank) && x < |parent| && y < |parent|
    requires parent[x] != x && rank[x] < rank[y]
    requires RootOf(parent, rank, y) == RootOf(parent, rank, x)
    ensures Ranked(parent[x := y], rank)
    ensures Labels(parent[x := y], rank) == Labels(parent, rank)
    ensures Roots(parent[x := y]) == Roots(parent)
  {
    assert Ranked(parent[x := y], rank);
    forall z | 0 <= z < |parent| ensures RootOf(parent[x := y], rank, z) == RootOf(parent, rank, z) {
      RedirectOne(parent, rank, x, y, z);
    }
  }

  lemma {:induction false} RedirectOne(parent: seq<nat>, rank: seq<nat>, x: nat, y: nat, z: nat)
    requires Ranked(parent, rank) && x < |parent| && y < |parent| && z < |parent|
    requires parent[x] != x && rank[x] < rank[y]
    requires RootOf(parent, rank, y) == RootOf(parent, rank, x)
    requires Ranked(parent[x := y], rank)
    ensures RootOf(parent[x := y], rank, z) == RootOf(parent, rank, z)
    decreases Height(rank, z)
  {
    if z == x {
      RedirectOne(parent, rank, x, y, y);
    } else if parent[z] != z {
      RedirectOne(parent, rank, x, y, parent[z]);
    }
  }

  // Linking one root under another, whose rank is raised, joins their two sets and no others.
  lemma Unite(parent: seq<nat>, rank: seq<nat>, small: nat, large: nat, newRank: nat)
    requires Ranked(parent, rank) && small < |parent| && large < |parent| && small != large
    requires parent[small] == small && parent[large] == large
    requires rank[small] < newRank && rank[large] <= newRank
    ensures var parent', rank' := parent[small := large], rank[large := newRank];
      && Ranked(parent', rank')
      && United(Labels(parent, rank), Labels(parent', rank'), small, large, large)
      && Roots(parent') == Roots(parent) - {small} && |Roots(parent')| == |Roots(parent)| - 1
  {
    var parent', rank' := parent[small := large], rank[large := newRank];
    assert Ranked(parent', rank');
    forall z | 0 <= z < |parent|
      ensures RootOf(parent', rank', z) ==
              if RootOf(parent, rank, z) == small then large else RootOf(parent, rank, z)
    {
      UniteOne(parent, rank, small, large, newRank, z);
    }
    assert Roots(parent') == Roots(parent) - {small};
  }

  lemma {:induction false} UniteOne(parent: seq<nat>, rank: seq<nat>, small: nat, large: nat, newRank: nat, z: nat)
    requires Ranked(parent, rank) && small < |parent| && large < |parent| && small != large && z < |parent|
    requires parent[small] == small && parent[large] == large
    requires rank[small] < newRank && rank[large] <= newRank
    requires Ranked(parent[small := large], rank[large := newRank])
    ensures RootOf(parent[small := large], rank[large := newRank], z) ==
            if RootOf(parent, rank, z) == small then large else RootOf(parent, rank, z)
    decreases Height(rank, z)
  {
    if parent[z] != z {
      UniteOne(parent, rank, small, large, newRank, parent[z]);
    }
  }

  // A new node on its own.
  lemma Grow(parent: seq<nat>, rank: seq<nat>)
    requires Ranked(parent, rank)
    ensures var parent', rank' := parent + [|parent|], rank + [0];
      && Ranked(parent', rank')
      && Labels(parent', rank') == Labels(parent, rank) + [|parent|]
      && Roots(parent') == Roots(parent) + {|parent|} && |Roots(parent')| == |Roots(parent)| + 1
  {
    var parent', rank' := parent + [|parent|], rank + [0];
    assert Ranked(parent', rank');
    forall z | 0 <= z < |parent| ensures RootOf(parent', rank', z) == RootOf(parent, rank, z) {
      GrowOne(parent, rank, z);
    }
    assert Roots(parent') == Roots(parent) + {|parent|};
  }

  lemma {:induction false} GrowOne(parent: seq<nat>, rank: seq<nat>, z: nat)
    requires Ranked(parent, rank) && z < |parent|
    requires Ranked(parent + [|parent|], rank + [0])
    ensures RootOf(parent + [|parent|], rank + [0], z) == RootOf(parent, rank, z)
    decreases Height(rank, z)
  {
    if parent[z] != z {
      GrowOne(parent, rank, parent[z]);
    }
  }
}

module DisjointSets {
  import opened ParentForests

  class DisjointSet {
    var parent: seq<nat>
    var rank: seq<nat>
    var edges: nat

    constructor ()
      ensures Valid() && parent == [] && edges == 0
    {
      parent, rank, edges := [], [], 0;
    }

    // Holds after nodes 0, 1, 2, ... are made once each and in any run of Find and Merge after that.
    ghost predicate Valid()
      reads this
    {
      Ranked(parent, rank) && edges + |Roots(parent)| == |parent|
    }

    // The root of every node: two nodes are in one set when their roots are the same.
    ghost function Sets(): (s: seq<nat>)
      requires Valid()
      reads this
      ensures |s| == |parent|
    {
      Labels(parent, rank)
    }

    // The vectors grow with zeroes, so a node made too early leaves links to node 0 behind it;
    // making the next node adds a set of its own.
    method MakeSet(node: nat)
      requires |rank| == |parent|
      modifies this
      ensures parent == Resized(old(parent), node + 1)[node := node]
      ensures rank == Resized(old(rank), node + 1)[node := 0]
      ensures edges == old(edges)
      ensures old(Valid()) && node == |old(parent)| ==>
                Valid() && |parent| == node + 1 && Sets() == old(Sets()) + [node]
    {
      ghost var parent0, rank0 := parent, rank;
      if |parent| <= node {
        parent := Resized(parent, node + 1);
        rank := Resized(rank, node + 1);
      }
      parent := parent[node := node];
      rank := rank[node := 0];
      if Ranked(parent0, rank0) && node == |parent0| {
        Grow(parent0, rank0);
        assert parent == parent0 + [node] && rank == rank0 + [0];
      }
    }

    // Follows the links to the root and points every node on the way at it.
    method Find(node: nat) returns (root: nat)
      requires Valid() && node < |parent|
      modifies `parent
      ensures Valid() && |rank| == |parent| == |old(parent)| && Roots(parent) == old(Roots(parent))
      ensures Sets() == old(Sets()) && root == Sets()[node] && parent[node] == root
      ensures forall x :: 0 <= x < |parent| ==>
                parent[x] == if x in Path(old(parent), rank, node) then root else old(parent)[x]
      decreases Height(rank, node)
    {
      if parent[node] == node {
        return node;
      }
      ghost var before := parent;
      root := Find(parent[node]);
      Redirect(parent, rank, node, root);
      parent := parent[node := root];
    }

    // Which root stands for the union of two sets.
    ghost function Winner(x: nat, y: nat): nat
      requires Valid() && x < |parent| && y < |parent|
      reads this
    {
      if rank[Sets()[x]] < rank[Sets()[y]] then Sets()[y] else Sets()[x]
    }

    // Joins the two sets, unless they are one already.
    method Merge(x: nat, y: nat) returns (joined: bool)
      requires Valid() && x < |parent| && y < |parent|
      modifies this
      ensures Valid() && |parent| == |old(parent)|
      ensures joined <==> old(Sets())[x] != old(Sets())[y]
      ensures edges == old(edges) + (if joined then 1 else 0)
      ensures |Roots(parent)| == |old(Roots(parent))| - (if joined then 1 else 0)
      ensures rank == if joined then old(rank[Winner(x, y) := rank[Winner(x, y)] + 1]) else old(rank)
      ensures joined ==> United(old(Sets()), Sets(), old(Sets()[x]), old(Sets()[y]), old(Winner(x, y)))
      ensures joined ==>
                var a, b := old(Sets()[x]), old(Sets()[y]);
                if old(rank)[a] < old(rank)[b] then parent[a] == b && rank[b] == old(rank)[b] + 1
                else parent[b] == a && rank[a] == old(rank)[a] + 1
      ensures !joined ==> Sets() == old(Sets())
    {
      hide Ranked, Roots, RootOf, Path;
      var x_root := Find(x);
      var y_root := Find(y);
      if x_root == y_root {
        return false;
      }
      var x_root_rank := rank[x_root];
      var y_root_rank := rank[y_root];
      var large := x_root;
      var small := y_root;
      if x_root_rank < y_root_rank {
        large := y_root;
        small := x_root;
      }
      Unite(parent, rank, small, large, rank[large] + 1);
      parent := parent[small := large];
      rank := rank[large := rank[large] + 1];
      edges := edges + 1;
      joined := true;
    }
  }

  // What vector::resize does when it makes a vector longer; never shorter here.
  function Resized(s: seq<nat>, size: nat): seq<nat> {
    if |s| < size then s + seq(size - |s|, _ => 0) else s
  }
}
