// Binary trees and their in-order traversals (misc/struct/tree.h, misc/struct/tree.cpp).
//
// A tree lives in the heap as TreeNode objects. Its structure is also kept as a value, a Shape,
// so that "the recursive in-order sequence" and "the tree is as it was" can be stated without
// running either traversal.
module InorderTraversals {

  class TreeNode {
    var value: int
    var left: TreeNode?
    var right: TreeNode?

    constructor (val: int, l: TreeNode?, r: TreeNode?)
      ensures value == val && left == l && right == r
    {
      value, left, right := val, l, r;
    }
  }

  datatype Shape = Leaf | Branch(l: Shape, node: TreeNode, r: Shape)

  function Root(t: Shape): TreeNode? {
    if t.Leaf? then null else t.node
  }

  // The nodes of a tree from left to right.
  function Nodes(t: Shape): seq<TreeNode> {
    match t
    case Leaf => []
    case Branch(l, n, r) => Nodes(l) + [n] + Nodes(r)
  }

  ghost predicate NoDuplicates<T>(s: seq<T>) {
    forall i, j :: 0 <= i < j < |s| ==> s[i] != s[j]
  }

  function NodeSet(t: Shape): set<TreeNode> {
    set n | n in Nodes(t)
  }

  // The recursive in-order traversal: the meaning of the tree.
  ghost function Inorder(t: Shape): (s: seq<int>)
    reads NodeSet(t)
    ensures |s| == |Nodes(t)|
    ensures forall i :: 0 <= i < |s| ==> s[i] == Nodes(t)[i].value
  {
    match t
    case Leaf => []
    case Branch(l, n, r) => Inorder(l) + [n.value] + Inorder(r)
  }

  // The links of a set of nodes at one moment, and trees described against them.
  type Links = map<TreeNode, TreeNode?>

  ghost function LeftLinks(nodes: set<TreeNode>): (m: Links)
    reads nodes
    ensures m.Keys == nodes
  {
    map n | n in nodes :: n.left
  }

  ghost function RightLinks(nodes: set<TreeNode>): (m: Links)
    reads nodes
    ensures m.Keys == nodes
  {
    map n | n in nodes :: n.right
  }

  ghost function Values(nodes: set<TreeNode>): (m: map<TreeNode, int>)
    reads nodes
    ensures m.Keys == nodes
  {
    map n | n in nodes :: n.value
  }

  ghost function Write(links: Links, n: TreeNode, target: TreeNode?): Links {
    links[n := target]
  }

  ghost predicate Shaped(t: Shape, left: Links, right: Links) {
    match t
    case Leaf => true
    case Branch(l, n, r) =>
      && n in left && n in right
      && left[n] == Root(l) && right[n] == Root(r)
      && Shaped(l, left, right) && Shaped(r, left, right)
  }

  // What a traversal has still to come back to: node n, whose left subtree l has been entered,
  // then n's right subtree r, then the rest.
  datatype Pending = Finished | Resume(l: Shape, n: TreeNode, r: Shape, rest: Pending)

  function Work(p: Pending): seq<TreeNode> {
    match p
    case Finished => []
    case Resume(l, n, r, rest) => [n] + Nodes(r) + Work(rest)
  }

  function Waiting(p: Pending): set<TreeNode> {
    match p
    case Finished => {}
    case Resume(l, n, r, rest) => {n} + Waiting(rest)
  }

  // The explicit stack of the stack-based traversal, top last.
  function Stack(p: Pending): seq<TreeNode> {
    match p
    case Finished => []
    case Resume(_, n, _, rest) => Stack(rest) + [n]
  }

  function Next(p: Pending): TreeNode? {
    if p.Finished? then null else p.n
  }

  ghost predicate PendingShaped(p: Pending, left: Links, right: Links) {
    match p
    case Finished => true
    case Resume(l, n, r, rest) =>
      && Shaped(Branch(l, n, r), left, right)
      && PendingShaped(rest, left, right)
  }

  // Each pending node stands in order right after the nodes of its left subtree, which is not empty.
  ghost predicate Placed(p: Pending, order: seq<TreeNode>) {
    match p
    case Finished => true
    case Resume(l, n, r, rest) =>
      && l.Branch?
      && |Work(p)| + |Nodes(l)| <= |order|
      && order[|order| - |Work(p)|..] == Work(p)
      && order[|order| - |Work(p)| - |Nodes(l)|..|order| - |Work(p)|] == Nodes(l)
      && Placed(rest, order)
  }

  // Steps that both traversals still owe.
  function Measure(t: Shape, p: Pending): nat {
    2 * |Nodes(t)| + PendingMeasure(p)
  }

  function PendingMeasure(p: Pending): nat {
    match p
    case Finished => 0
    case Resume(_, _, r, rest) => 1 + 2 * |Nodes(r)| + PendingMeasure(rest)
  }

  // The first k nodes of order are output; what is left is the subtree t, untouched, then pending.
  ghost predicate Doing(k: nat, t: Shape, p: Pending, order: seq<TreeNode>, left: Links, right: Links) {
    && k <= |order| && order[k..] == Nodes(t) + Work(p)
    && Shaped(t, left, right) && PendingShaped(p, left, right)
  }

  lemma Descend(k: nat, t: Shape, p: Pending, order: seq<TreeNode>, left: Links, right: Links)
    requires Doing(k, t, p, order, left, right) && t.Branch?
    ensures Doing(k, t.l, Resume(t.l, t.node, t.r, p), order, left, right)
    ensures Measure(t.l, Resume(t.l, t.node, t.r, p)) < Measure(t, p)
    ensures t.node in order && t.node in left && left[t.node] == Root(t.l)
  {
    assert Nodes(t) + Work(p) == Nodes(t.l) + Work(Resume(t.l, t.node, t.r, p));
    assert order[k + |Nodes(t.l)|] == order[k..][|Nodes(t.l)|];
  }

  lemma ComeBack(k: nat, p: Pending, order: seq<TreeNode>, left: Links, right: Links)
    requires Doing(k, Leaf, p, order, left, right) && p.Resume?
    ensures k < |order| && order[k] == p.n
    ensures Doing(k + 1, p.r, p.rest, order, left, right)
    ensures Measure(p.r, p.rest) < Measure(Leaf, p)
    ensures p.n in right && right[p.n] == Root(p.r)
  {
    hide Shaped, PendingShaped;
    HeadShaped(p, left, right);
    assert order[k..] == [p.n] + Nodes(p.r) + Work(p.rest);
    assert order[k] == order[k..][0];
    assert order[k + 1..] == order[k..][1..];
  }

  // Waiting nodes are among the work still to be done.
  lemma WaitingInWork(p: Pending)
    ensures forall n :: n in Waiting(p) ==> n in Work(p)
  {
  }

  // The right pointer of order[j], given which nodes are waiting to be returned to: the node just
  // before a waiting node in order holds a thread to it; every other node has its own pointer.
  ghost function RightNow(order: seq<TreeNode>, j: nat, waiting: set<TreeNode>, right: Links): TreeNode?
    requires j < |order| && order[j] in right
  {
    if j + 1 < |order| && order[j + 1] in waiting then order[j + 1] else right[order[j]]
  }

  ghost predicate Threaded(order: seq<TreeNode>, waiting: set<TreeNode>, right: Links, now: Links) {
    forall j :: 0 <= j < |order| ==>
      && order[j] in right && order[j] in now
      && now[order[j]] == RightNow(order, j, waiting, right)
  }

  // Going right from the node just output leads to the next subtree, or by thread to the next
  // waiting node, or to null at the end.
  lemma RightLeadsOn(k: nat, t: Shape, p: Pending, order: seq<TreeNode>, left: Links, right: Links)
    requires k < |order| && Doing(k + 1, t, p, order, left, right) && NoDuplicates(order)
    requires order[k] in right && right[order[k]] == Root(t)
    ensures RightNow(order, k, Waiting(p), right) == if t.Branch? then t.node else Next(p)
  {
    WaitingInWork(p);
    var rest := order[k + 1..];
    if t.Branch? {
      assert rest[0] == order[k + 1] && rest[0] in Nodes(t);
      assert order[k + 1] !in Work(p) by {
        forall i | 0 <= i < |Work(p)| ensures Work(p)[i] != order[k + 1] {
          assert Work(p)[i] == rest[|Nodes(t)| + i] == order[k + 1 + |Nodes(t)| + i];
        }
      }
    } else if p.Resume? {
      assert rest[0] == order[k + 1] == p.n;
    } else {
      assert |rest| == 0;
    }
  }

  // Nodes before the remaining work are not waiting.
  lemma WaitingLater(k: nat, p: Pending, order: seq<TreeNode>, before: seq<TreeNode> := [])
    requires k <= |order| && order[k..] == before + Work(p) && NoDuplicates(order)
    ensures forall j :: 0 <= j < k ==> order[j] !in Waiting(p)
  {
    WaitingInWork(p);
    forall j | 0 <= j < k ensures order[j] !in Work(p) {
      forall i | 0 <= i < |Work(p)| ensures order[j] != Work(p)[i] {
        assert Work(p)[i] == order[k..][|before| + i];
      }
    }
  }

  // A subtree whose left part is empty: its node is next in order, then its right part.
  lemma NoLeftPart(k: nat, t: Shape, p: Pending, order: seq<TreeNode>, left: Links, right: Links)
    requires Doing(k, t, p, order, left, right) && t.Branch? && t.l.Leaf?
    ensures k < |order| && order[k] == t.node && t.node in right && right[t.node] == Root(t.r)
    ensures Doing(k + 1, t.r, p, order, left, right) && Measure(t.r, p) < Measure(t, p)
  {
    Descend(k, t, p, order, left, right);
    ComeBack(k, Resume(t.l, t.node, t.r, p), order, left, right);
  }

  // s is a tree on the right spine of the left subtree of order[m].
  ghost predicate OnSpine(s: Shape, m: nat, order: seq<TreeNode>, waiting: set<TreeNode>, left: Links, right: Links) {
    && s.Branch? && Shaped(s, left, right)
    && |Nodes(s)| <= m < |order| && order[m - |Nodes(s)|..m] == Nodes(s)
    && forall j :: m - |Nodes(s)| <= j < m ==> order[j] !in waiting
  }

  // Walking right from s.node: either one step down the spine, or s.node is the predecessor of
  // order[m] and holds a thread to it or null.
  lemma SpineStep(s: Shape, m: nat, order: seq<TreeNode>, waiting: set<TreeNode>, left: Links, right: Links)
    requires OnSpine(s, m, order, waiting, left, right) && NoDuplicates(order)
    ensures var j := m - |Nodes(s.r)| - 1;
      && 0 <= j && order[j] == s.node && s.node in right
      && RightNow(order, j, waiting, right) ==
         (if s.r.Branch? then s.r.node else if order[m] in waiting then order[m] else null)
      && (s.r.Branch? ==> OnSpine(s.r, m, order, waiting, left, right) && s.r.node != order[m])
      && (s.r.Leaf? ==> j == m - 1 && right[s.node] == null)
  {
    var j := m - |Nodes(s.r)| - 1;
    SplitSlice(order, m - |Nodes(s)|, m, Nodes(s.l), s.node, Nodes(s.r));
    if s.r.Branch? {
      hide Shaped;
      assert order[j + 1] !in waiting;
      var i := |Nodes(s.r.l)|;
      assert order[j + 1..m][i] == order[j + 1 + i] == s.r.node;
    }
  }

  lemma SplitSlice<T>(s: seq<T>, a: nat, b: nat, x: seq<T>, y: T, z: seq<T>)
    requires a <= b <= |s| && s[a..b] == x + [y] + z
    ensures b - |z| - 1 == a + |x| && s[a + |x|] == y
    ensures s[a..a + |x|] == x && s[b - |z|..b] == z
  {
    var t := s[a..b];
    assert t[|x|] == y && t[..|x|] == x && t[|x| + 1..] == z;
  }

  // A subtree's left part is on its own spine while the subtree is untouched ...
  lemma SpineWhenEntering(k: nat, t: Shape, p: Pending, order: seq<TreeNode>, left: Links, right: Links)
    requires Doing(k, t, p, order, left, right) && NoDuplicates(order)
    requires Placed(p, order) && t.Branch? && t.l.Branch?
    ensures var m := k + |Nodes(t.l)|;
      && OnSpine(t.l, m, order, Waiting(p), left, right)
      && order[m] == t.node && t.node !in Waiting(p)
    ensures Placed(Resume(t.l, t.node, t.r, p), order)
    ensures Waiting(Resume(t.l, t.node, t.r, p)) == {t.node} + Waiting(p)
  {
    hide Shaped, PendingShaped;
    var m := k + |Nodes(t.l)|;
    LeftShaped(t, left, right);
    LeftPlace(k, t, p, order);
    hide Nodes, Work;
    WaitingLater(m + 1, p, order, Nodes(t.r));
    hide NoDuplicates;
    WorkOf(t.l, t.node, t.r, p);
  }

  lemma LeftPlace(k: nat, t: Shape, p: Pending, order: seq<TreeNode>)
    requires k <= |order| && t.Branch? && order[k..] == Nodes(t) + Work(p)
    ensures var m := k + |Nodes(t.l)|;
      && m < |order| && order[m] == t.node && order[k..m] == Nodes(t.l)
      && order[m + 1..] == Nodes(t.r) + Work(p) && order[m..] == [t.node] + (Nodes(t.r) + Work(p))
  {
    var l, r := Nodes(t.l), Nodes(t.r);
    assert order[k..] == (l + [t.node] + r) + Work(p);
    hide Nodes, Work;
    SplitSuffix(order, k, l, t.node, r, Work(p));
  }

  lemma SplitSuffix<T>(s: seq<T>, k: nat, x: seq<T>, y: T, z: seq<T>, w: seq<T>)
    requires k <= |s| && s[k..] == (x + [y] + z) + w
    ensures var m := k + |x|;
      && m < |s| && s[m] == y && s[k..m] == x && s[m + 1..] == z + w && s[m..] == [y] + (z + w)
  {
    var t, n := s[k..], |x|;
    assert t[n] == y && t[..n] == x && t[n + 1..] == z + w && t[n..] == [y] + (z + w);
  }

  lemma WorkOf(l: Shape, n: TreeNode, r: Shape, p: Pending)
    ensures Work(Resume(l, n, r, p)) == [n] + (Nodes(r) + Work(p))
  {
  }

  lemma LeftShaped(t: Shape, left: Links, right: Links)
    requires Shaped(t, left, right) && t.Branch?
    ensures Shaped(t.l, left, right)
  {
  }

  lemma PlacedHead(p: Pending, order: seq<TreeNode>)
    requires Placed(p, order) && p.Resume?
    ensures p.l.Branch? && |Work(p)| + |Nodes(p.l)| <= |order|
    ensures order[|order| - |Work(p)| - |Nodes(p.l)|..|order| - |Work(p)|] == Nodes(p.l)
    ensures Waiting(p) == {p.n} + Waiting(p.rest)
  {
  }

  lemma HeadShaped(p: Pending, left: Links, right: Links)
    requires PendingShaped(p, left, right) && p.Resume?
    ensures Shaped(p.l, left, right) && p.n in left && left[p.n] == Root(p.l)
    ensures Shaped(p.r, left, right) && p.n in right && right[p.n] == Root(p.r)
    ensures PendingShaped(p.rest, left, right)
  {
  }

  lemma WorkAhead(k: nat, p: Pending, order: seq<TreeNode>, left: Links, right: Links)
    requires Doing(k, Leaf, p, order, left, right) && p.Resume?
    ensures order[k..] == [] + Work(p) && k == |order| - |Work(p)|
    ensures k < |order| && order[k] == p.n && order[k + 1..] == Nodes(p.r) + Work(p.rest)
    ensures PendingShaped(p, left, right)
  {
    assert order[k..][1..] == order[k + 1..];
  }

  // ... and when the node itself is the next to be returned to.
  lemma SpineWhenReturning(k: nat, p: Pending, order: seq<TreeNode>, left: Links, right: Links)
    requires Doing(k, Leaf, p, order, left, right) && NoDuplicates(order)
    requires Placed(p, order) && p.Resume?
    ensures k < |order| && order[k] == p.n && p.n in left && p.l.Branch? && left[p.n] == p.l.node
    ensures OnSpine(p.l, k, order, Waiting(p), left, right)
    ensures p.n in Waiting(p) && Waiting(p.rest) == Waiting(p) - {p.n}
  {
    hide Placed, Shaped, Waiting, Work, Nodes, Doing, PendingShaped;
    WorkAhead(k, p, order, left, right);
    WaitingLater(k, p, order);
    WaitingLater(k + 1, p.rest, order, Nodes(p.r));
    PlacedHead(p, order);
    HeadShaped(p, left, right);
  }

  lemma AllRestored(order: seq<TreeNode>, right: Links, now: Links)
    requires Threaded(order, {}, right, now)
    requires right.Keys == now.Keys == set n | n in order
    ensures now == right
  {
    forall n | n in right ensures now[n] == right[n] {
      var j :| 0 <= j < |order| && order[j] == n;
      assert now[n] == RightNow(order, j, {}, right);
    }
  }

  lemma SpineRight(s: Shape, m: nat, order: seq<TreeNode>, waiting: set<TreeNode>, left: Links, right: Links, now: Links)
    requires OnSpine(s, m, order, waiting, left, right) && NoDuplicates(order)
    requires Threaded(order, waiting, right, now)
    ensures 0 < m < |order| && s.Branch? && s.node in order && s.node in now
    ensures now[s.node] == if s.r.Branch? then s.r.node else if order[m] in waiting then order[m] else null
    ensures s.r.Branch? ==> OnSpine(s.r, m, order, waiting, left, right) && s.r.node != order[m]
    ensures s.r.Leaf? ==> s.node == order[m - 1] && s.node in right && right[s.node] == null
  {
    hide Shaped;
    SpineStep(s, m, order, waiting, left, right);
  }

  // Writing the right pointer of order[m-1] makes order[m] wait, or stop waiting.
  lemma ThreadWritten(m: nat, order: seq<TreeNode>, waiting: set<TreeNode>, waiting': set<TreeNode>,
                      right: Links, now: Links)
    requires Threaded(order, waiting, right, now) && NoDuplicates(order) && 0 < m < |order|
    requires waiting' - {order[m]} == waiting - {order[m]}
    requires order[m - 1] in right && right[order[m - 1]] == null
    ensures Threaded(order, waiting', right, Write(now, order[m - 1], if order[m] in waiting' then order[m] else null))
  {
    forall j | 0 <= j < |order| && j != m - 1
      ensures RightNow(order, j, waiting', right) == RightNow(order, j, waiting, right)
    {
      if j + 1 < |order| {
        assert order[j + 1] in waiting' <==> order[j + 1] in waiting' - {order[m]};
        assert order[j + 1] in waiting <==> order[j + 1] in waiting - {order[m]};
      }
    }
  }

  lemma NothingDone(t: Shape, left: Links, right: Links)
    requires Shaped(t, left, right)
    ensures Doing(0, t, Finished, Nodes(t), left, right)
    ensures Placed(Finished, Nodes(t)) && Waiting(Finished) == {}
  {
  }

  lemma NothingLeft(k: nat, order: seq<TreeNode>, left: Links, right: Links)
    requires Doing(k, Leaf, Finished, order, left, right)
    ensures k == |order| && Waiting(Finished) == {}
  {
    assert |order[k..]| == 0;
  }

  // Where the traversal stands.
  function Current(t: Shape, p: Pending): TreeNode? {
    if t.Branch? then t.node else Next(p)
  }

  function LeftPart(t: Shape, p: Pending): Shape
    requires t.Branch? || p.Resume?
  {
    if t.Branch? then t.l else p.l
  }

  // Position of the current node in order.
  function Position(k: nat, t: Shape): nat {
    if t.Branch? then k + |Nodes(t.l)| else k
  }

  // The loop invariant of the Morris traversal, over the right links as they are now.
  ghost predicate Threading(k: nat, t: Shape, p: Pending, order: seq<TreeNode>, left: Links, right: Links, now: Links) {
    && NoDuplicates(order) && Doing(k, t, p, order, left, right)
    && Placed(p, order) && Threaded(order, Waiting(p), right, now)
  }

  lemma AtNode(k: nat, t: Shape, p: Pending, order: seq<TreeNode>, left: Links, right: Links, now: Links)
    requires Threading(k, t, p, order, left, right, now) && (t.Branch? || p.Resume?)
    ensures Current(t, p) in order && Current(t, p) in left && left[Current(t, p)] == Root(LeftPart(t, p))
    ensures LeftPart(t, p).Branch? ==>
              && OnSpine(LeftPart(t, p), Position(k, t), order, Waiting(p), left, right)
              && Current(t, p) == order[Position(k, t)]
              && (Current(t, p) in Waiting(p) <==> t.Leaf?)
    ensures t.Leaf? ==> LeftPart(t, p).Branch?
    ensures NoDuplicates(order) && Threaded(order, Waiting(p), right, now)
  {
    hide Shaped, Nodes, Measure, Doing, Work, PendingShaped, Placed, Waiting, OnSpine, Threaded, NoDuplicates;
    if t.Branch? {
      Descend(k, t, p, order, left, right);
      if t.l.Branch? { SpineWhenEntering(k, t, p, order, left, right); }
    } else {
      SpineWhenReturning(k, p, order, left, right);
    }
  }

  lemma EnterLeft(k: nat, t: Shape, p: Pending, order: seq<TreeNode>, left: Links, right: Links, now: Links)
    requires Threading(k, t, p, order, left, right, now) && t.Branch? && t.l.Branch?
    ensures 0 < Position(k, t) < |order|
    ensures Threading(k, t.l, Resume(t.l, t.node, t.r, p), order, left, right,
                      Write(now, order[Position(k, t) - 1], t.node))
    ensures Measure(t.l, Resume(t.l, t.node, t.r, p)) < Measure(t, p)
  {
    hide Shaped, Nodes, Measure, Doing, Work, PendingShaped, Placed, Waiting, OnSpine, Threaded, NoDuplicates;
    Descend(k, t, p, order, left, right);
    SpineWhenEntering(k, t, p, order, left, right);
    LastOnSpine(t.l, Position(k, t), order, Waiting(p), left, right);
    ThreadWritten(Position(k, t), order, Waiting(p), Waiting(Resume(t.l, t.node, t.r, p)), right, now);
  }

  lemma ReturnHere(k: nat, p: Pending, order: seq<TreeNode>, left: Links, right: Links, now: Links)
    requires Threading(k, Leaf, p, order, left, right, now) && p.Resume?
    ensures 0 < k < |order| && order[k] == p.n
    ensures var now' := Write(now, order[k - 1], null);
      && Threading(k + 1, p.r, p.rest, order, left, right, now')
      && p.n in now' && now'[p.n] == Current(p.r, p.rest)
    ensures Measure(p.r, p.rest) < Measure(Leaf, p)
  {
    hide Shaped, Nodes, Measure, Doing, Work, PendingShaped, Waiting, OnSpine, NoDuplicates;
    SpineWhenReturning(k, p, order, left, right);
    LastOnSpine(p.l, k, order, Waiting(p), left, right);
    ThreadWritten(k, order, Waiting(p), Waiting(p.rest), right, now);
    ComeBack(k, p, order, left, right);
    RightLeadsOn(k, p.r, p.rest, order, left, right);
  }

  lemma VisitLeftmost(k: nat, t: Shape, p: Pending, order: seq<TreeNode>, left: Links, right: Links, now: Links)
    requires Threading(k, t, p, order, left, right, now) && t.Branch? && t.l.Leaf?
    ensures k < |order| && order[k] == t.node
    ensures Threading(k + 1, t.r, p, order, left, right, now)
    ensures t.node in now && now[t.node] == Current(t.r, p)
    ensures Measure(t.r, p) < Measure(t, p)
  {
    hide Shaped, Nodes, Measure, Doing, Work, PendingShaped, Placed, Waiting, OnSpine, NoDuplicates;
    NoLeftPart(k, t, p, order, left, right);
    RightLeadsOn(k, t.r, p, order, left, right);
  }

  // The end of a right spine is the predecessor, whose own right link is null.
  lemma LastOnSpine(s: Shape, m: nat, order: seq<TreeNode>, waiting: set<TreeNode>, left: Links, right: Links)
    requires OnSpine(s, m, order, waiting, left, right) && NoDuplicates(order)
    ensures 0 < m < |order| && order[m - 1] in right && right[order[m - 1]] == null
    decreases s
  {
    SpineStep(s, m, order, waiting, left, right);
    if s.r.Branch? {
      LastOnSpine(s.r, m, order, waiting, left, right);
    }
  }

  lemma InorderOfValues(t: Shape, content: map<TreeNode, int>)
    requires content == Values(NodeSet(t))
    ensures |Inorder(t)| == |Nodes(t)|
    ensures forall j :: 0 <= j < |Nodes(t)| ==> Nodes(t)[j] in content && content[Nodes(t)[j]] == Inorder(t)[j]
  {
  }

  lemma ReadNode(n: TreeNode, nodes: set<TreeNode>)
    requires n in nodes
    ensures n in LeftLinks(nodes) && LeftLinks(nodes)[n] == n.left
    ensures n in RightLinks(nodes) && RightLinks(nodes)[n] == n.right
    ensures n in Values(nodes) && Values(nodes)[n] == n.value
  {
  }

  method SetRight(n: TreeNode, target: TreeNode?, ghost nodes: set<TreeNode>)
    requires n in nodes
    modifies n`right
    ensures LeftLinks(nodes) == old(LeftLinks(nodes)) && Values(nodes) == old(Values(nodes))
    ensures RightLinks(nodes) == Write(old(RightLinks(nodes)), n, target)
  {
    n.right := target;
  }

  lemma Start(t: Shape, left: Links, right: Links)
    requires NoDuplicates(Nodes(t)) && Shaped(t, left, right) && right.Keys == NodeSet(t)
    ensures Threading(0, t, Finished, Nodes(t), left, right, right)
  {
  }

  lemma Finish(k: nat, order: seq<TreeNode>, left: Links, right: Links, now: Links)
    requires Threading(k, Leaf, Finished, order, left, right, now)
    requires right.Keys == now.Keys == set n | n in order
    ensures k == |order| && now == right
  {
    NothingLeft(k, order, left, right);
    AllRestored(order, right, now);
  }

  // The walk to the last node of node's left subtree, which stops early on a thread to node.
  method Predecessor(node: TreeNode, ghost spine: Shape, ghost m: nat, ghost order: seq<TreeNode>,
                     ghost waiting: set<TreeNode>, ghost left: Links, ghost right: Links, ghost now: Links)
    returns (prev: TreeNode)
    requires NoDuplicates(order) && Threaded(order, waiting, right, now)
    requires OnSpine(spine, m, order, waiting, left, right) && order[m] == node && node.left == spine.node
    requires now == RightLinks(set n | n in order)
    ensures 0 < m < |order| && prev == order[m - 1] && prev in right && right[prev] == null
    ensures prev.right == if node in waiting then node else null
  {
    hide Shaped, Nodes, Threaded, RightNow;
    prev := node.left;
    ghost var s := spine;
    SpineRight(s, m, order, waiting, left, right, now);
    while prev.right != null && prev.right != node
      invariant OnSpine(s, m, order, waiting, left, right) && prev == s.node
      invariant s.node in order && s.node in now
      decreases s
    {
      SpineRight(s, m, order, waiting, left, right, now);
      prev := prev.right;
      s := s.r;
      SpineRight(s, m, order, waiting, left, right, now);
    }
    SpineRight(s, m, order, waiting, left, right, now);
  }

  class Tree {
    var root: TreeNode
    ghost const shape: Shape

    constructor (root: TreeNode, ghost shape: Shape)
      ensures this.root == root && this.shape == shape
    {
      this.root := root;
      this.shape := shape;
    }

    // The nodes reachable from root form a finite tree without sharing, and shape is that tree.
    ghost predicate Valid()
      reads this, NodeSet(shape)
    {
      && Root(shape) == root
      && NoDuplicates(Nodes(shape))
      && Shaped(shape, LeftLinks(NodeSet(shape)), RightLinks(NodeSet(shape)))
    }

    method InorderTraversal() returns (ret: seq<int>)
      requires Valid()
      ensures ret == Inorder(shape)
    {
      hide Shaped, Nodes, Measure, Doing, Work, PendingShaped;
      ret := [];
      var stk: seq<TreeNode> := [];
      var node: TreeNode? := root;
      ghost var order, values := Nodes(shape), Inorder(shape);
      ghost var left, right := LeftLinks(NodeSet(shape)), RightLinks(NodeSet(shape));
      ghost var t, pending := shape, Finished;
      NothingDone(shape, left, right);
      while true
        invariant Doing(|ret|, t, pending, order, left, right)
        invariant |ret| <= |values| && ret == values[..|ret|]
        invariant node == Root(t) && stk == Stack(pending)
        decreases Measure(t, pending)
      {
        ghost var measure := Measure(t, pending);
        while node != null
          invariant Doing(|ret|, t, pending, order, left, right)
          invariant node == Root(t) && stk == Stack(pending)
          invariant Measure(t, pending) <= measure
          decreases t
        {
          Descend(|ret|, t, pending, order, left, right);
          stk := stk + [node];
          pending := Resume(t.l, t.node, t.r, pending);
          t := t.l;
          node := node.left;
        }
        if |stk| == 0 {
          NothingLeft(|ret|, order, left, right);
          break;
        }
        ComeBack(|ret|, pending, order, left, right);
        node := stk[|stk| - 1];
        assert node.value == values[|ret|];
        ret := ret + [node.value];
        stk := stk[..|stk| - 1];
        node := node.right;
        t, pending := pending.r, pending.rest;
      }
    }

    // Morris traversal: no stack; while a left subtree is visited, its last node holds a thread
    // back to the subtree's parent. Every link is as before when the traversal ends.
    method InorderTraversalMorris() returns (ret: seq<int>)
      requires Valid()
      modifies NodeSet(shape)
      ensures ret == old(Inorder(shape))
      ensures LeftLinks(NodeSet(shape)) == old(LeftLinks(NodeSet(shape)))
      ensures RightLinks(NodeSet(shape)) == old(RightLinks(NodeSet(shape)))
      ensures Values(NodeSet(shape)) == old(Values(NodeSet(shape))) && Valid()
    {
      hide Shaped, Nodes, Measure, Inorder, Threading, OnSpine, Threaded, NoDuplicates, Waiting, LeftLinks, RightLinks, Values, Write;
      ret := [];
      var node: TreeNode? := root;
      ghost var order, values, nodes := Nodes(shape), Inorder(shape), NodeSet(shape);
      ghost var left, right := LeftLinks(nodes), RightLinks(nodes);
      ghost var now, t, pending := right, shape, Finished;
      ghost var content := Values(nodes);
      Start(shape, left, right);
      InorderOfValues(shape, content);
      while node != null
        invariant Threading(|ret|, t, pending, order, left, right, now)
        invariant |ret| <= |values| && ret == values[..|ret|]
        invariant node == Current(t, pending)
        invariant left == LeftLinks(nodes) && now == RightLinks(nodes)
        invariant content == Values(nodes)
        decreases Measure(t, pending)
      {
        AtNode(|ret|, t, pending, order, left, right, now);
        ReadNode(node, nodes);
        if node.left != null {
          var prev := Predecessor(node, LeftPart(t, pending), Position(|ret|, t), order, Waiting(pending), left, right, now);
          if prev.right == null {
            EnterLeft(|ret|, t, pending, order, left, right, now);
            now := Write(now, prev, node);
            SetRight(prev, node, nodes);
            node := node.left;
            t, pending := t.l, Resume(t.l, t.node, t.r, pending);
          } else {
            ReturnHere(|ret|, pending, order, left, right, now);
            now := Write(now, prev, null);
            SetRight(prev, null, nodes);
            ReadNode(node, nodes);
            ret := ret + [node.value];
            node := node.right;
            t, pending := pending.r, pending.rest;
          }
        } else {
          VisitLeftmost(|ret|, t, pending, order, left, right, now);
          ret := ret + [node.value];
          node := node.right;
          t := t.r;
        }
      }
      Finish(|ret|, order, left, right, now);
    }
  }
}
