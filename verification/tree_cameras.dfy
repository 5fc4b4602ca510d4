// leetcode/tree/treeCameras.cc: the fewest cameras that watch every node of a binary tree, where
// a camera watches its node, the parent and the children.
module TreeCameras {

  datatype Tree = Empty | Node(left: Tree, right: Tree)

  // A node is named by the way to it from the root: false for left, true for right.
  type Path = seq<bool>

  const ROOT: Path := []

  ghost function Nodes(t: Tree): set<Path> {
    match t
    case Empty => {}
    case Node(l, r) => {[]} + Under(false, Nodes(l)) + Under(true, Nodes(r))
  }

  ghost function Under(side: bool, C: set<Path>): set<Path> {
    set p | p in C :: [side] + p
  }

  // The part of C below one child, named from that child.
  ghost function Below(side: bool, C: set<Path>): set<Path> {
    set p | p in C && |p| > 0 && p[0] == side :: p[1..]
  }

  ghost predicate Watched(C: set<Path>, p: Path) {
    p in C || (p != [] && p[..|p| - 1] in C) || p + [false] in C || p + [true] in C
  }

  // Cameras at nodes of t, watching every node, or every node but possibly the root.
  ghost predicate Covers(t: Tree, C: set<Path>) {
    C <= Nodes(t) && forall p :: p in Nodes(t) ==> Watched(C, p)
  }

  ghost predicate CoversButRoot(t: Tree, C: set<Path>) {
    C <= Nodes(t) && forall p :: p in Nodes(t) && p != [] ==> Watched(C, p)
  }

  ghost predicate IsFewest(n: nat, t: Tree) {
    && (exists C :: Covers(t, C) && |C| == n)
    && forall C :: Covers(t, C) ==> n <= |C|
  }

  // ---------------------------------------------------------------------------------------
  // The greedy rule

  datatype State = NONE | COVERED | CAMERA

  function StateAbove(l: State, r: State): State {
    if l == NONE || r == NONE then CAMERA
    else if l == CAMERA || r == CAMERA then COVERED
    else NONE
  }

  // What dfs returns for a tree, and how many cameras it counts on the way.
  function Placed(t: Tree): (State, nat) {
    match t
    case Empty => (COVERED, 0)
    case Node(l, r) =>
      var s := StateAbove(Placed(l).0, Placed(r).0);
      (s, Placed(l).1 + Placed(r).1 + if s == CAMERA then 1 else 0)
  }

  // The counter that dfs captures.
  class Counter {
    var res: nat

    constructor ()
      ensures res == 0
    {
      res := 0;
    }

    method Dfs(node: Tree) returns (s: State)
      modifies this
      ensures (s, res) == (Placed(node).0, old(res) + Placed(node).1)
    {
      if node.Empty? {
        return COVERED;
      }
      var l := Dfs(node.left);
      var r := Dfs(node.right);
      if l == NONE || r == NONE {
        res := res + 1;
        return CAMERA;
      }
      if l == CAMERA || r == CAMERA {
        return COVERED;
      }
      return NONE;
    }
  }

  method MinCameraCover(root: Tree) returns (res: nat)
    ensures IsFewest(res, root)
  {
    var counter := new Counter();
    var s := counter.Dfs(root);
    if s == NONE {
      counter.res := counter.res + 1;
    }
    GreedyIsFewest(root);
    return counter.res;
  }

  // ---------------------------------------------------------------------------------------
  // Sets of cameras, taken apart at the root

  lemma InBelow(side: bool, C: set<Path>, p: Path)
    ensures p in Below(side, C) <==> [side] + p in C
  {
    if [side] + p in C {
      assert ([side] + p)[1..] == p;
    }
    if p in Below(side, C) {
      var q :| q in C && |q| > 0 && q[0] == side && q[1..] == p;
      assert q == [side] + p;
    }
  }

  lemma InUnder(side: bool, C: set<Path>, way: bool, p: Path)
    ensures [way] + p in Under(side, C) <==> way == side && p in C
    ensures [] !in Under(side, C)
  {
    if [way] + p in Under(side, C) {
      var q :| q in C && [side] + q == [way] + p;
      assert q == ([side] + q)[1..] == p;
    }
  }

  lemma BelowWith(side: bool, D: set<Path>, q: Path)
    requires q !in D
    ensures |Below(side, D + {q})| == |Below(side, D)| + if q != [] && q[0] == side then 1 else 0
  {
    var here := q != [] && q[0] == side;
    forall p ensures p in Below(side, D + {q}) <==> p in Below(side, D) || (here && p == q[1..]) {
      InBelow(side, D + {q}, p);
      InBelow(side, D, p);
      if here { assert q == [side] + q[1..]; }
    }
    if here {
      assert q == [side] + q[1..];
      InBelow(side, D, q[1..]);
      assert Below(side, D + {q}) == Below(side, D) + {q[1..]};
    } else {
      assert Below(side, D + {q}) == Below(side, D);
    }
  }

  lemma {:induction false} SizeByParts(C: set<Path>)
    ensures |C| == (if [] in C then 1 else 0) + |Below(false, C)| + |Below(true, C)|
  {
    if C != {} {
      var q :| q in C;
      SizeByParts(C - {q});
      assert C - {q} + {q} == C;
      BelowWith(false, C - {q}, q);
      BelowWith(true, C - {q}, q);
    }
  }

  // The part of t's nodes below one child.
  function Child(t: Tree, side: bool): Tree
    requires t.Node?
  {
    if side then t.right else t.left
  }

  lemma NodesBelow(t: Tree, side: bool, p: Path)
    requires t.Node?
    ensures [side] + p in Nodes(t) <==> p in Nodes(Child(t, side))
  {
    InUnder(false, Nodes(t.left), side, p);
    InUnder(true, Nodes(t.right), side, p);
  }

  // A covering set covers the subtrees, except that a child's root may be watched from above.
  lemma CoversBelow(t: Tree, C: set<Path>, side: bool)
    requires t.Node? && CoversButRoot(t, C)
    ensures CoversButRoot(Child(t, side), Below(side, C))
    ensures [] !in C ==> Covers(Child(t, side), Below(side, C))
  {
    var c, D := Child(t, side), Below(side, C);
    forall p | p in D ensures p in Nodes(c) {
      InBelow(side, C, p);
      NodesBelow(t, side, p);
    }
    forall p | p in Nodes(c) && (p != [] || [] !in C) ensures Watched(D, p) {
      NodesBelow(t, side, p);
      WatchedBelow(side, C, p);
    }
  }

  lemma WatchedBelow(side: bool, C: set<Path>, p: Path)
    requires p != [] || [] !in C
    ensures Watched(C, [side] + p) <==> Watched(Below(side, C), p)
  {
    var q := [side] + p;
    InBelow(side, C, p);
    InBelow(side, C, p + [false]);
    InBelow(side, C, p + [true]);
    assert q + [false] == [side] + (p + [false]) && q + [true] == [side] + (p + [true]);
    if p != [] {
      InBelow(side, C, p[..|p| - 1]);
      assert q[..|q| - 1] == [side] + p[..|p| - 1];
    } else {
      assert q[..|q| - 1] == [];
    }
  }

  // ---------------------------------------------------------------------------------------
  // No set is smaller

  // At least as many cameras as dfs counts; one more if the root is watched though dfs left it
  // unwatched; one more if there is a camera at the root though dfs put none there.
  lemma {:induction false} NoFewer(t: Tree, C: set<Path>)
    requires CoversButRoot(t, C)
    ensures Placed(t).1 <= |C|
    ensures Covers(t, C) && Placed(t).0 == NONE ==> Placed(t).1 + 1 <= |C|
    ensures [] in C && Placed(t).0 != CAMERA ==> Placed(t).1 + 1 <= |C|
  {
    if t.Node? {
      SizeByParts(C);
      var L, R := Below(false, C), Below(true, C);
      CoversBelow(t, C, false);
      CoversBelow(t, C, true);
      NoFewer(t.left, L);
      NoFewer(t.right, R);
      InBelow(false, C, []);
      InBelow(true, C, []);
      assert [] in Nodes(t);
      assert ROOT + [false] == [false] + ROOT && ROOT + [true] == [true] + ROOT;
    }
  }

  // ---------------------------------------------------------------------------------------
  // A set of that size

  ghost function Cameras(t: Tree): set<Path> {
    match t
    case Empty => {}
    case Node(l, r) =>
      (if Placed(t).0 == CAMERA then {[]} else {}) + Under(false, Cameras(l)) + Under(true, Cameras(r))
  }

  lemma CamerasBelow(t: Tree, side: bool)
    requires t.Node?
    ensures Below(side, Cameras(t)) == Cameras(Child(t, side))
    ensures [] in Cameras(t) <==> Placed(t).0 == CAMERA
  {
    forall p ensures p in Below(side, Cameras(t)) <==> p in Cameras(Child(t, side)) {
      InBelow(side, Cameras(t), p);
      InUnder(false, Cameras(t.left), side, p);
      InUnder(true, Cameras(t.right), side, p);
    }
    InUnder(false, Cameras(t.left), side, []);
    InUnder(true, Cameras(t.right), side, []);
  }

  lemma {:induction false} CamerasCount(t: Tree)
    ensures |Cameras(t)| == Placed(t).1
  {
    if t.Node? {
      hide Nodes;
      CamerasBelow(t, false);
      CamerasBelow(t, true);
      CamerasCount(t.left);
      CamerasCount(t.right);
      SizeByParts(Cameras(t));
    }
  }

  lemma {:induction false} CamerasWatch(t: Tree)
    ensures CoversButRoot(t, Cameras(t))
    ensures Placed(t).0 != NONE ==> Covers(t, Cameras(t))
  {
    if t.Node? {
      hide Cameras, Nodes, Watched, Placed, StateAbove;
      CamerasWatch(t.left);
      CamerasWatch(t.right);
      forall p | p in Cameras(t) ensures p in Nodes(t) {
        CameraAtNode(t, p);
      }
      forall p | p in Nodes(t) && (p != [] || Placed(t).0 != NONE) ensures Watched(Cameras(t), p) {
        NodeWatched(t, p);
      }
    }
  }

  lemma NodeWatched(t: Tree, p: Path)
    requires t.Node? && p in Nodes(t) && (p != [] || Placed(t).0 != NONE)
    requires forall side :: CoversButRoot(Child(t, side), Cameras(Child(t, side)))
    requires forall side :: Placed(Child(t, side)).0 != NONE ==> Covers(Child(t, side), Cameras(Child(t, side)))
    ensures Watched(Cameras(t), p)
  {
    hide Cameras, Nodes, Watched, Placed, Covers, CoversButRoot;
    if p == [] {
      RootWatched(t);
    } else {
      assert p == [p[0]] + p[1..];
      NodesBelow(t, p[0], p[1..]);
      ChildWatched(t, p[0], p[1..]);
    }
  }

  lemma CameraAtNode(t: Tree, p: Path)
    requires t.Node? && p in Cameras(t)
    requires Cameras(t.left) <= Nodes(t.left) && Cameras(t.right) <= Nodes(t.right)
    ensures p in Nodes(t)
  {
    if p != [] {
      assert p == [p[0]] + p[1..];
      InUnder(false, Cameras(t.left), p[0], p[1..]);
      InUnder(true, Cameras(t.right), p[0], p[1..]);
      NodesBelow(t, p[0], p[1..]);
    }
  }

  lemma ChildWatched(t: Tree, side: bool, p: Path)
    requires t.Node? && p in Nodes(Child(t, side))
    requires CoversButRoot(Child(t, side), Cameras(Child(t, side)))
    requires Placed(Child(t, side)).0 != NONE ==> Covers(Child(t, side), Cameras(Child(t, side)))
    ensures Watched(Cameras(t), [side] + p)
  {
    CamerasBelow(t, side);
    if [] in Cameras(t) && p == [] {
      assert ([side] + p)[..|[side] + p| - 1] == [];
    } else {
      WatchedBelow(side, Cameras(t), p);
    }
  }

  lemma RootWatched(t: Tree)
    requires t.Node? && Placed(t).0 != NONE
    ensures Watched(Cameras(t), [])
  {
    CamerasBelow(t, false);
    CamerasBelow(t, true);
    InBelow(false, Cameras(t), []);
    InBelow(true, Cameras(t), []);
    assert ROOT + [false] == [false] + ROOT && ROOT + [true] == [true] + ROOT;
    if t.left.Node? { CamerasBelow(t.left, false); }
    if t.right.Node? { CamerasBelow(t.right, false); }
  }

  lemma GreedyIsFewest(t: Tree)
    ensures IsFewest(Placed(t).1 + (if Placed(t).0 == NONE then 1 else 0), t)
  {
    hide Placed, Covers, CoversButRoot;
    var C := GreedyCovers(t);
    assert Covers(t, C);
    forall D | Covers(t, D) ensures |C| <= |D| {
      CoversMore(t, D);
      NoFewer(t, D);
    }
  }

  lemma GreedyCovers(t: Tree) returns (C: set<Path>)
    ensures Covers(t, C) && |C| == Placed(t).1 + if Placed(t).0 == NONE then 1 else 0
  {
    CamerasWatch(t);
    CamerasCount(t);
    C := Cameras(t);
    if Placed(t).0 == NONE {
      RootAdded(t);
      C := C + {[]};
    }
  }

  // A camera at the root of a tree that the greedy choice leaves unwatched there.
  lemma RootAdded(t: Tree)
    requires Placed(t).0 == NONE && CoversButRoot(t, Cameras(t))
    ensures Covers(t, Cameras(t) + {[]}) && [] !in Cameras(t)
  {
    CamerasBelow(t, false);
    assert [] in Nodes(t);
    var C := Cameras(t) + {[]};
    hide Placed, Cameras;
    forall p | p in Nodes(t) ensures Watched(C, p) {
      if p != [] { assert Watched(Cameras(t), p); }
    }
  }

  lemma CoversMore(t: Tree, C: set<Path>)
    requires Covers(t, C)
    ensures CoversButRoot(t, C)
  {
  }
}
