// misc/struct/skip_list.cpp: a sorted set as a list with express levels above it.
module SkipLists {

  type int32 = x: int | -0x8000_0000 <= x < 0x8000_0000

  const INT_MIN: int32 := -0x8000_0000
  const INT_MAX: int32 := 0x7FFF_FFFF
  const MAX_LEVEL: nat := 8

  class SkipNode {
    const value: int32
    const level: nat
    var forward: seq<SkipNode?>

    constructor (value: int32, level: nat)
      ensures this.value == value && this.level == level
      ensures |forward| == level + 1 && forall i :: 0 <= i <= level ==> forward[i] == null
    {
      this.value, this.level := value, level;
      forward := [];
      new;
      for i := 0 to level + 1
        invariant |forward| == i && forall k :: 0 <= k < i ==> forward[k] == null
      {
        forward := forward + [null];
      }
    }
  }

  // ---------------------------------------------------------------------------------------
  // The nodes of a skip list in order, from head to tail

  ghost predicate Ordered(nodes: seq<SkipNode>) {
    && |nodes| >= 2
    && nodes[0].value == INT_MIN && nodes[|nodes| - 1].value == INT_MAX
    && nodes[0].level == nodes[|nodes| - 1].level == MAX_LEVEL
    && (forall k :: 0 <= k < |nodes| ==> nodes[k].level <= MAX_LEVEL)
    && (forall j, k :: 0 <= j < k < |nodes| ==> nodes[j] != nodes[k])
    && forall j, k :: 1 <= j < k < |nodes| ==> nodes[j].value < nodes[k].value
  }

  // nodes[j] is the first node after nodes[k] on level i.
  ghost predicate NextAt(nodes: seq<SkipNode>, i: nat, k: nat, j: nat) {
    && k < j < |nodes| && i <= nodes[k].level && i <= nodes[j].level
    && forall m :: k < m < j ==> nodes[m].level < i
  }

  // The forward pointers of some nodes at one moment.
  type Forwards = map<SkipNode, seq<SkipNode?>>

  ghost function ForwardsOf(nodes: set<SkipNode>): (f: Forwards)
    reads nodes
    ensures f.Keys == nodes
  {
    map n | n in nodes :: n.forward
  }

  ghost function NodeSet(nodes: seq<SkipNode>): set<SkipNode> {
    set n | n in nodes
  }

  // On every level, each node points at the next node of that level.
  ghost predicate Linked(nodes: seq<SkipNode>, f: Forwards) {
    && (forall k :: 0 <= k < |nodes| ==> nodes[k] in f && |f[nodes[k]]| == nodes[k].level + 1)
    && forall i: nat, k: nat, j: nat :: NextAt(nodes, i, k, j) ==> f[nodes[k]][i] == nodes[j]
  }

  ghost function NextIndex(nodes: seq<SkipNode>, i: nat, k: nat): (j: nat)
    requires Ordered(nodes) && i <= MAX_LEVEL && k < |nodes| - 1 && i <= nodes[k].level
    ensures NextAt(nodes, i, k, j)
  {
    NextFrom(nodes, i, k, k + 1)
  }

  ghost function NextFrom(nodes: seq<SkipNode>, i: nat, k: nat, from: nat): (j: nat)
    requires Ordered(nodes) && i <= MAX_LEVEL && k < from < |nodes| && i <= nodes[k].level
    requires forall m :: k < m < from ==> nodes[m].level < i
    ensures NextAt(nodes, i, k, j)
    decreases |nodes| - from
  {
    if i <= nodes[from].level then from else NextFrom(nodes, i, k, from + 1)
  }

  // nodes[p] is the last node of level i that is the head or holds less than v.
  ghost predicate Below(nodes: seq<SkipNode>, v: int32, i: nat, p: nat) {
    && p < |nodes| - 1 && i <= nodes[p].level
    && (p == 0 || nodes[p].value < v)
    && forall k :: p < k < |nodes| && i <= nodes[k].level ==> v <= nodes[k].value
  }

  ghost function Values(nodes: seq<SkipNode>): set<int32> {
    set k | 1 <= k < |nodes| - 1 :: nodes[k].value
  }

  class SkipList {
    const head: SkipNode
    const tail: SkipNode
    var cur_max_level: nat
    ghost var nodes: seq<SkipNode>

    ghost predicate Valid()
      reads this, nodes
    {
      && Ordered(nodes) && Linked(nodes, ForwardsOf(NodeSet(nodes)))
      && nodes[0] == head && nodes[|nodes| - 1] == tail
      && cur_max_level <= MAX_LEVEL
      && forall k :: 1 <= k < |nodes| - 1 ==> nodes[k].level <= cur_max_level
    }

    // The set the list stands for.
    ghost function Elements(): set<int32>
      reads this
    {
      Values(nodes)
    }

    constructor ()
      ensures Valid() && fresh(nodes) && Elements() == {}
    {
      head := new SkipNode(INT_MIN, MAX_LEVEL);
      hide Ordered, Linked, NextAt;
      tail := new SkipNode(INT_MAX, MAX_LEVEL);
      cur_max_level := 0;
      nodes := [head, tail];
      new;
      for i := 0 to MAX_LEVEL + 1
        invariant |head.forward| == |tail.forward| == MAX_LEVEL + 1
        invariant forall k :: 0 <= k < i ==> head.forward[k] == tail
        invariant cur_max_level == 0 && nodes == [head, tail]
        invariant head.value == INT_MIN && tail.value == INT_MAX && head.level == tail.level == MAX_LEVEL
        invariant fresh(head) && fresh(tail) && head != tail
      {
        head.forward := head.forward[i := tail];
      }
      TwoNodes(head, tail, ForwardsOf(NodeSet(nodes)));
    }

    // Where forward[i] of nodes[p] leads.
    lemma Hop(i: nat, p: nat)
      requires Valid() && p < |nodes| - 1 && i <= nodes[p].level
      ensures i <= MAX_LEVEL && i < |nodes[p].forward|
      ensures var j := NextIndex(nodes, i, p);
        && p < j < |nodes| && nodes[p].forward[i] == nodes[j] && i <= nodes[j].level
        && (nodes[j].value < INT_MAX ==> j < |nodes| - 1)
    {
    }

    // For each level in use, the last node before which value can be put; at says where each stands.
    method AbsLowerBound(value: int32) returns (ret: seq<SkipNode>, ghost at: seq<nat>)
      requires Valid()
      ensures |ret| == |at| == cur_max_level + 1
      ensures forall i :: 0 <= i < |ret| ==> at[i] < |nodes| - 1 && Below(nodes, value, i, at[i]) && nodes[at[i]] == ret[i]
    {
      hide Ordered, Linked, NextAt, Below, NextIndex;
      ret, at := [], [];
      var node: SkipNode := head;
      ghost var p: nat := 0;
      var i: int := cur_max_level;
      AtLeastTwo();
      while i >= 0
        invariant -1 <= i <= cur_max_level && |ret| == |at| == cur_max_level - i
        invariant p < |nodes| - 1 && nodes[p] == node && (p == 0 || node.value < value)
        invariant i <= node.level
        invariant forall k :: 0 <= k < |ret| ==>
                    at[k] < |nodes| - 1 && Below(nodes, value, cur_max_level - k, at[k]) && nodes[at[k]] == ret[k]
      {
        Hop(i, p);
        while node.forward[i] != null && node.forward[i].value < value
          invariant p < |nodes| - 1 && nodes[p] == node && (p == 0 || node.value < value)
          invariant i <= node.level && i < |node.forward|
          decreases |nodes| - p
        {
          Hop(i, p);
          node := node.forward[i];
          p := NextIndex(nodes, i, p);
          Hop(i, p);
        }
        Hop(i, p);
        StopsHere(nodes, value, i, p);
        ret, at := ret + [node], at + [p];
        i := i - 1;
      }
      ret, at := Reverse(ret), Reverse(at);
    }

    lemma AtLeastTwo()
      requires Valid()
      ensures |nodes| >= 2 && head.level == MAX_LEVEL
    {
    }

    method Find(value: int32) returns (r: SkipNode?)
      requires Valid()
      ensures r != null <==> value in Elements() || value == INT_MAX
      ensures r != null ==> r in nodes[1..] && r.value == value
    {
      ghost var at;
      var bound: seq<SkipNode>;
      bound, at := AbsLowerBound(value);
      var prev := bound[0];
      assert NextAt(nodes, 0, at[0], at[0] + 1);
      Located(nodes, value, at[0]);
      if prev.forward[0] != null && prev.forward[0].value == value {
        assert nodes[at[0] + 1] == nodes[1..][at[0]];
        return prev.forward[0];
      } else {
        return null;
      }
    }

    // new_level is the level drawn at random.
    method Insert(value: int32, new_level: nat) returns (r: SkipNode)
      requires Valid() && new_level <= MAX_LEVEL
      modifies this, nodes
      ensures Valid() && r in nodes && r.value == value
      ensures Elements() == old(Elements()) + (if value == INT_MAX then {} else {value})
      ensures value in old(Elements()) || value == INT_MAX ==>
                nodes == old(nodes) && cur_max_level == old(cur_max_level)
      ensures value !in old(Elements()) && value != INT_MAX ==>
                && fresh(r) && r.level == new_level
                && cur_max_level == (if old(cur_max_level) < new_level then new_level else old(cur_max_level))
                && exists p :: 0 < p < |old(nodes)| && nodes == old(nodes)[..p] + [r] + old(nodes)[p..]
    {
      hide Ordered, Linked, NextAt, Below, Values, NextIndex;
      ghost var at;
      var lower_bound: seq<SkipNode>;
      lower_bound, at := AbsLowerBound(value);
      var prev := lower_bound[0];
      Located(nodes, value, at[0]);
      LevelZero(at[0]);
      Hop(0, at[0]);
      if prev.forward[0] != null && prev.forward[0].value == value {
        return prev.forward[0];
      }
      var new_node := new SkipNode(value, new_level);
      SpliceIn(new_node, lower_bound, at);
      InsertAddsValue(old(nodes), new_node, at[0]);
      ghost var p := at[0] + 1;
      assert nodes == old(nodes)[..p] + [new_node] + old(nodes)[p..];
      assert nodes[p] == new_node;
      return new_node;
    }

    lemma LevelZero(p: nat)
      requires Valid() && p < |nodes| - 1
      ensures 0 <= nodes[p].level
    {
    }

    // Links a new node into every one of its levels: after the nodes found by the search, and
    // between head and tail on levels not in use yet.
    method SpliceIn(new_node: SkipNode, lower_bound: seq<SkipNode>, ghost at: seq<nat>)
      requires Valid() && new_node !in nodes && new_node.level <= MAX_LEVEL
      requires |new_node.forward| == new_node.level + 1 &&
               forall i :: 0 <= i <= new_node.level ==> new_node.forward[i] == null
      requires new_node.value !in Elements() && new_node.value != INT_MAX
      requires |lower_bound| == |at| == cur_max_level + 1
      requires forall i :: 0 <= i < |at| ==>
                 at[i] < |nodes| - 1 && Below(nodes, new_node.value, i, at[i]) && nodes[at[i]] == lower_bound[i]
      modifies this`cur_max_level, this`nodes, NodeSet(nodes)`forward, new_node`forward
      ensures Valid() && nodes == Inserted(old(nodes), new_node, at[0])
      ensures cur_max_level == if old(cur_max_level) < new_node.level then new_node.level else old(cur_max_level)
    {
      hide Ordered, Linked, NextAt, Below, Values, Spliced, Splice, SetAt, NextIndex, LowAt, Inserted, ForwardsOf, Valid, NodeSet;
      Parts();
      var new_level := new_node.level;
      ghost var chain, max := nodes, cur_max_level;
      ghost var low := LowAt(chain, new_node.value, max, at, new_level);
      ghost var all := NodeSet(chain) + {new_node};
      ghost var f, now := ForwardsOf(NodeSet(chain)), ForwardsOf(all);
      SpliceStart(chain, f, low, new_node, now);
      var shared := if new_level < cur_max_level then new_level else cur_max_level;
      now := LinkShared(new_node, lower_bound, shared, chain, f, low, now);
      if new_level > cur_max_level {
        HighSplices(chain, f, cur_max_level);
        now := LinkHigh(new_node, head, tail, new_level, cur_max_level, chain, f, low, now);
        cur_max_level := new_level;
      }
      InsertKeepsLinks(chain, f, low, new_node, shared + 1, if new_level > shared then shared + 1 else new_level + 1, now);
      InsertKeepsOrder(chain, new_node, at[0]);
      SpliceDone(chain, new_node, at[0], max, cur_max_level);
      assert ForwardsOf(NodeSet(Inserted(chain, new_node, at[0]))) == now;
      Adopt(Inserted(chain, new_node, at[0]));
    }

    lemma Parts()
      requires Valid()
      ensures Ordered(nodes) && Linked(nodes, ForwardsOf(NodeSet(nodes)))
      ensures |nodes| >= 2 && nodes[0] == head && nodes[|nodes| - 1] == tail && head in NodeSet(nodes)
      ensures cur_max_level <= MAX_LEVEL && forall k :: 1 <= k < |nodes| - 1 ==> nodes[k].level <= cur_max_level
    {
    }

    ghost method Adopt(chain: seq<SkipNode>)
      requires Ordered(chain) && Linked(chain, ForwardsOf(NodeSet(chain)))
      requires |chain| >= 2 && chain[0] == head && chain[|chain| - 1] == tail
      requires cur_max_level <= MAX_LEVEL && forall k :: 1 <= k < |chain| - 1 ==> chain[k].level <= cur_max_level
      modifies this`nodes
      ensures nodes == chain && Valid()
    {
      nodes := chain;
    }
  }

  // The levels the list has in use already: after the nodes the search found.
  method LinkShared(new_node: SkipNode, lower_bound: seq<SkipNode>, shared: nat, ghost chain: seq<SkipNode>,
                    ghost f: Forwards, ghost low: seq<nat>, ghost before: Forwards)
    returns (ghost now: Forwards)
    requires Ordered(chain) && new_node !in chain && shared < |low| && shared < |lower_bound|
    requires forall i :: 0 <= i <= shared ==> low[i] < |chain| && chain[low[i]] == lower_bound[i]
    requires before == ForwardsOf(NodeSet(chain) + {new_node}) && Spliced(chain, f, low, new_node, 0, |low|, before)
    modifies NodeSet(chain)`forward, new_node`forward
    ensures now == ForwardsOf(NodeSet(chain) + {new_node})
    ensures Spliced(chain, f, low, new_node, shared + 1, |low|, now)
  {
    hide Ordered, Spliced, Splice, SetAt, ForwardsOf;
    now := before;
    ghost var all := NodeSet(chain) + {new_node};
    for i := 0 to shared + 1
      invariant now == ForwardsOf(all) && Spliced(chain, f, low, new_node, i, |low|, now)
    {
      var prev := lower_bound[i];
      SpliceStep(chain, f, low, new_node, i, |low|, now, i);
      ReadForward(prev, all);
      LinkLevel(new_node, prev, i, prev.forward[i], all, f, now);
      now := Splice(now, new_node, prev, i, f);
    }
  }

  // The levels above: between head and tail.
  method LinkHigh(new_node: SkipNode, head: SkipNode, tail: SkipNode, new_level: nat, max: nat, ghost chain: seq<SkipNode>,
                  ghost f: Forwards, ghost low: seq<nat>, ghost before: Forwards)
    returns (ghost now: Forwards)
    requires Ordered(chain) && new_node !in chain && |low| == new_level + 1 && max < new_level
    requires |chain| > 0 && head == chain[0] && head in f
    requires forall i :: max < i <= new_level ==> low[i] == 0 && i < |f[head]| && f[head][i] == tail
    requires before == ForwardsOf(NodeSet(chain) + {new_node}) && Spliced(chain, f, low, new_node, max + 1, |low|, before)
    modifies head`forward, new_node`forward
    ensures now == ForwardsOf(NodeSet(chain) + {new_node})
    ensures Spliced(chain, f, low, new_node, max + 1, max + 1, now)
  {
    hide Ordered, Spliced, Splice, SetAt, ForwardsOf;
    now := before;
    ghost var all := NodeSet(chain) + {new_node};
    for i := new_level + 1 downto max + 1
      invariant now == ForwardsOf(all) && Spliced(chain, f, low, new_node, max + 1, i, now)
    {
      SpliceStep(chain, f, low, new_node, max + 1, i + 1, now, i);
      LinkLevel(new_node, head, i, tail, all, f, now);
      now := Splice(now, new_node, head, i, f);
    }
  }

  lemma SpliceDone(nodes: seq<SkipNode>, n: SkipNode, p: nat, max: nat, max': nat)
    requires |nodes| >= 2 && p < |nodes| - 1 && max <= max' && n.level <= max'
    requires forall k :: 1 <= k < |nodes| - 1 ==> nodes[k].level <= max
    ensures var nodes' := Inserted(nodes, n, p);
      && NodeSet(nodes') == NodeSet(nodes) + {n}
      && |nodes'| >= 2 && nodes'[0] == nodes[0] && nodes'[|nodes'| - 1] == nodes[|nodes| - 1]
      && forall k :: 1 <= k < |nodes'| - 1 ==> nodes'[k].level <= max'
  {
    var nodes' := Inserted(nodes, n, p);
    forall k | 1 <= k < |nodes'| - 1 ensures nodes'[k].level <= max' {
      assert k != p + 1 ==> nodes'[k] == nodes[Before(p, k)];
    }
    forall x | x in nodes ensures x in nodes' {
      var k :| 0 <= k < |nodes| && nodes[k] == x;
      assert nodes'[if k <= p then k else k + 1] == x;
    }
    assert nodes'[p + 1] == n;
  }

  // An empty list: the head points at the tail on every level.
  lemma TwoNodes(h: SkipNode, t: SkipNode, f: Forwards)
    requires h.value == INT_MIN && t.value == INT_MAX && h.level == t.level == MAX_LEVEL && h != t
    requires h in f && t in f && |f[h]| == |f[t]| == MAX_LEVEL + 1
    requires forall i :: 0 <= i <= MAX_LEVEL ==> f[h][i] == t
    ensures Ordered([h, t]) && Linked([h, t], f) && Values([h, t]) == {}
  {
  }

  // The two writes that link n in on one level: n before target, and prev before n.
  method LinkLevel(n: SkipNode, prev: SkipNode, i: nat, target: SkipNode?,
                   ghost all: set<SkipNode>, ghost f: Forwards, ghost now: Forwards)
    requires now == ForwardsOf(all) && n in all && prev in all && n != prev
    requires i < |now[n]| && i < |now[prev]|
    requires prev in f && i < |f[prev]| && f[prev][i] == target
    modifies n`forward, prev`forward
    ensures ForwardsOf(all) == Splice(now, n, prev, i, f)
  {
    n.forward := n.forward[i := target];
    prev.forward := prev.forward[i := n];
  }

  lemma ReadForward(n: SkipNode, all: set<SkipNode>)
    requires n in all
    ensures n in ForwardsOf(all) && ForwardsOf(all)[n] == n.forward
  {
  }

  ghost function SetAt(f: Forwards, n: SkipNode, i: nat, target: SkipNode?): Forwards
    requires n in f && i < |f[n]|
  {
    f[n := f[n][i := target]]
  }

  // The places to splice on each level of a new node: those found by the search, and the head
  // on levels not in use yet.
  ghost function LowAt(nodes: seq<SkipNode>, v: int32, max: nat, at: seq<nat>, level: nat): (low: seq<nat>)
    requires Ordered(nodes) && |at| == max + 1 && level <= MAX_LEVEL
    requires forall k :: 1 <= k < |nodes| - 1 ==> nodes[k].level <= max
    requires forall i :: 0 <= i < |at| ==> Below(nodes, v, i, at[i])
    ensures |low| == level + 1
    ensures forall i :: 0 <= i < |low| ==> Below(nodes, v, i, low[i]) && low[i] == if i <= max then at[i] else 0
  {
    seq(level + 1, i requires i >= 0 => if i <= max then at[i] else 0)
  }

  // The forward pointers when the new node n has been spliced in on the levels below lo and from
  // hi up, n going after nodes[low[i]] on level i.
  ghost predicate Spliced(nodes: seq<SkipNode>, f: Forwards, low: seq<nat>, n: SkipNode, lo: nat, hi: nat, now: Forwards) {
    && n in now && |now[n]| == |low|
    && (forall i :: 0 <= i < |low| ==> low[i] < |nodes| && nodes[low[i]] in f && i < |f[nodes[low[i]]]|)
    && (forall k :: 0 <= k < |nodes| ==> nodes[k] in f && nodes[k] in now && |now[nodes[k]]| == |f[nodes[k]]|)
    && (forall i :: 0 <= i < |low| && (i < lo || hi <= i) ==> now[n][i] == f[nodes[low[i]]][i])
    && forall k, i {:trigger now[nodes[k]][i]} :: 0 <= k < |nodes| && 0 <= i < |f[nodes[k]]| ==>
         now[nodes[k]][i] == if (i < lo || hi <= i) && i < |low| && low[i] == k then n else f[nodes[k]][i]
  }

  ghost function Splice(now: Forwards, n: SkipNode, prev: SkipNode, i: nat, f: Forwards): Forwards
    requires n in now && i < |now[n]| && prev in now && i < |now[prev]| && n != prev
    requires prev in f && i < |f[prev]|
  {
    SetAt(SetAt(now, n, i, f[prev][i]), prev, i, n)
  }

  lemma SpliceStart(nodes: seq<SkipNode>, f: Forwards, low: seq<nat>, n: SkipNode, now: Forwards)
    requires Ordered(nodes) && Linked(nodes, f) && n !in nodes && |low| == n.level + 1
    requires forall i :: 0 <= i < |low| ==> Below(nodes, n.value, i, low[i])
    requires f == ForwardsOf(NodeSet(nodes)) && now == ForwardsOf(NodeSet(nodes) + {n}) && |n.forward| == |low|
    ensures Spliced(nodes, f, low, n, 0, |low|, now)
  {
  }

  lemma SpliceStep(nodes: seq<SkipNode>, f: Forwards, low: seq<nat>, n: SkipNode, lo: nat, hi: nat, now: Forwards, i: nat)
    requires Ordered(nodes) && n !in nodes && lo < hi <= |low| && (i == lo || i == hi - 1)
    requires Spliced(nodes, f, low, n, lo, hi, now)
    ensures var prev := nodes[low[i]];
      && prev in now && i < |now[prev]| && prev in f && i < |f[prev]| && now[prev][i] == f[prev][i]
      && n in now && i < |now[n]| && n != prev
      && var now' := Splice(now, n, prev, i, f);
         && (i == lo ==> Spliced(nodes, f, low, n, lo + 1, hi, now'))
         && (i == hi - 1 ==> Spliced(nodes, f, low, n, lo, hi - 1, now'))
  {
  }

  // Above the levels in use, the head points at the tail.
  lemma HighSplice(nodes: seq<SkipNode>, f: Forwards, i: nat)
    requires Ordered(nodes) && Linked(nodes, f) && i <= MAX_LEVEL
    requires forall k :: 1 <= k < |nodes| - 1 ==> nodes[k].level < i
    ensures nodes[0] in f && i < |f[nodes[0]]| && f[nodes[0]][i] == nodes[|nodes| - 1]
  {
    assert NextAt(nodes, i, 0, |nodes| - 1);
  }

  lemma HighSplices(nodes: seq<SkipNode>, f: Forwards, max: nat)
    requires Ordered(nodes) && Linked(nodes, f)
    requires forall k :: 1 <= k < |nodes| - 1 ==> nodes[k].level <= max
    ensures nodes[0] in f && |f[nodes[0]]| == MAX_LEVEL + 1
    ensures forall i :: max < i <= MAX_LEVEL ==> f[nodes[0]][i] == nodes[|nodes| - 1]
  {
    forall i | max < i <= MAX_LEVEL ensures f[nodes[0]][i] == nodes[|nodes| - 1] {
      HighSplice(nodes, f, i);
    }
  }

  ghost function Inserted(nodes: seq<SkipNode>, n: SkipNode, p: nat): seq<SkipNode>
    requires p < |nodes|
  {
    nodes[..p + 1] + [n] + nodes[p + 1..]
  }

  lemma InsertKeepsOrder(nodes: seq<SkipNode>, n: SkipNode, p: nat)
    requires Ordered(nodes) && n !in nodes && n.level <= MAX_LEVEL
    requires Below(nodes, n.value, 0, p) && n.value !in Values(nodes) && n.value != INT_MAX
    ensures Ordered(Inserted(nodes, n, p))
  {
    hide Values;
    var nodes' := Inserted(nodes, n, p);
    LowIsLast(nodes, n, p, 0, p);
    forall k | p < k < |nodes| ensures n.value < nodes[k].value {
      ValueIn(nodes, k);
    }
    forall k | 0 <= k < |nodes'| && k != p + 1 ensures nodes'[k] == nodes[Before(p, k)] {
    }
  }

  lemma ValueIn(nodes: seq<SkipNode>, k: nat)
    requires Ordered(nodes) && 1 <= k < |nodes|
    ensures k < |nodes| - 1 ==> nodes[k].value in Values(nodes)
  {
  }

  lemma InsertAddsValue(nodes: seq<SkipNode>, n: SkipNode, p: nat)
    requires p < |nodes| - 1
    ensures Values(Inserted(nodes, n, p)) == Values(nodes) + {n.value}
  {
    var nodes' := Inserted(nodes, n, p);
    forall x | x in Values(nodes) + {n.value} ensures x in Values(nodes') {
      if x in Values(nodes) {
        var k :| 1 <= k < |nodes| - 1 && nodes[k].value == x;
        var k' := if k <= p then k else k + 1;
        assert nodes'[k'].value == x;
      } else {
        assert nodes'[p + 1].value == x;
      }
    }
    forall x | x in Values(nodes') ensures x in Values(nodes) + {n.value} {
      var k :| 1 <= k < |nodes'| - 1 && nodes'[k].value == x;
      if k != p + 1 {
        assert nodes[Before(p, k)].value == x;
      }
    }
  }

  // Where an index of the longer sequence was before.
  function Before(p: nat, k: nat): nat
    requires k != p + 1
  {
    if k <= p then k else k - 1
  }

  // Whatever is up to p is below n, whatever is after p is above it.
  ghost predicate Split(nodes: seq<SkipNode>, n: SkipNode, p: nat) {
    && p < |nodes| - 1
    && (forall k :: 1 <= k <= p ==> nodes[k].value < n.value)
    && forall k :: p < k < |nodes| ==> n.value <= nodes[k].value
  }

  lemma LowIsLast(nodes: seq<SkipNode>, n: SkipNode, p: nat, i: nat, q: nat)
    requires Ordered(nodes) && Below(nodes, n.value, 0, p) && Below(nodes, n.value, i, q)
    ensures q <= p && Split(nodes, n, p)
    ensures forall k :: q < k <= p ==> nodes[k].level < i
  {
    assert forall k :: 1 <= k <= p ==> nodes[k].value <= nodes[p].value;
  }

  // The next node after k on level i is the new one: k is where the search stopped.
  lemma LastBefore(nodes: seq<SkipNode>, n: SkipNode, p: nat, q: nat, i: nat, k: nat)
    requires Ordered(nodes) && Below(nodes, n.value, 0, p) && Below(nodes, n.value, i, q)
    requires NextAt(Inserted(nodes, n, p), i, k, p + 1)
    ensures k == q
  {
    LowIsLast(nodes, n, p, i, q);
    var nodes' := Inserted(nodes, n, p);
    assert nodes'[q] == nodes[q] && nodes'[k] == nodes[k];
  }

  // The next node after the new one on level i is the one that came after the search's stop.
  lemma FirstAfter(nodes: seq<SkipNode>, n: SkipNode, p: nat, q: nat, i: nat, j: nat)
    requires Ordered(nodes) && Below(nodes, n.value, 0, p) && Below(nodes, n.value, i, q)
    requires NextAt(Inserted(nodes, n, p), i, p + 1, j)
    ensures NextAt(nodes, i, q, j - 1)
  {
    LowIsLast(nodes, n, p, i, q);
    var nodes' := Inserted(nodes, n, p);
    forall m | q < m < j - 1 ensures nodes[m].level < i {
      if m > p {
        assert nodes'[m + 1] == nodes[m];
      }
    }
  }

  // Two other nodes are neighbours on level i as they were, and not on both sides of the new one.
  lemma Elsewhere(nodes: seq<SkipNode>, n: SkipNode, p: nat, i: nat, k: nat, j: nat)
    requires Ordered(nodes) && p < |nodes| - 1
    requires k != p + 1 && j != p + 1 && NextAt(Inserted(nodes, n, p), i, k, j)
    ensures NextAt(nodes, i, Before(p, k), Before(p, j))
    ensures i <= n.level ==> j <= p || p + 1 < k
  {
    var nodes' := Inserted(nodes, n, p);
    assert nodes'[p + 1] == n;
    forall m | Before(p, k) < m < Before(p, j) ensures nodes[m].level < i {
      var m' := if m <= p then m else m + 1;
      assert nodes'[m'] == nodes[m];
    }
  }

  lemma InsertKeepsLinks(nodes: seq<SkipNode>, f: Forwards, low: seq<nat>, n: SkipNode, lo: nat, hi: nat, now: Forwards)
    requires Ordered(nodes) && Linked(nodes, f) && n !in nodes && n.level <= MAX_LEVEL && |low| == n.level + 1
    requires forall i :: 0 <= i < |low| ==> Below(nodes, n.value, i, low[i])
    requires Spliced(nodes, f, low, n, lo, hi, now) && hi <= lo
    ensures low[0] < |nodes| && Linked(Inserted(nodes, n, low[0]), now)
  {
    hide Ordered, NextAt, Below;
    var p := low[0];
    LowIsLast(nodes, n, p, 0, p);
    var nodes' := Inserted(nodes, n, p);
    forall k | 0 <= k < |nodes'| ensures nodes'[k] in now && |now[nodes'[k]]| == nodes'[k].level + 1 {
      if k != p + 1 {
        assert nodes'[k] == nodes[Before(p, k)];
      }
    }
    hide Linked, Spliced;
    forall i: nat, k: nat, j: nat | NextAt(nodes', i, k, j)
      ensures k < |nodes'| && j < |nodes'| && nodes'[k] in now && i < |now[nodes'[k]]| && now[nodes'[k]][i] == nodes'[j]
    {
      InsertedLink(nodes, f, low, n, lo, hi, now, i, k, j);
    }
    LinkedByParts(nodes', now);
  }

  lemma LinkedByParts(nodes: seq<SkipNode>, f: Forwards)
    requires forall k :: 0 <= k < |nodes| ==> nodes[k] in f && |f[nodes[k]]| == nodes[k].level + 1
    requires forall i: nat, k: nat, j: nat :: NextAt(nodes, i, k, j) ==>
               k < |nodes| && j < |nodes| && nodes[k] in f && i < |f[nodes[k]]| && f[nodes[k]][i] == nodes[j]
    ensures Linked(nodes, f)
  {
  }

  lemma InsertedLink(nodes: seq<SkipNode>, f: Forwards, low: seq<nat>, n: SkipNode, lo: nat, hi: nat, now: Forwards,
                     i: nat, k: nat, j: nat)
    requires Ordered(nodes) && Linked(nodes, f) && n !in nodes && n.level <= MAX_LEVEL && |low| == n.level + 1
    requires forall i :: 0 <= i < |low| ==> Below(nodes, n.value, i, low[i])
    requires Spliced(nodes, f, low, n, lo, hi, now) && hi <= lo
    requires low[0] < |nodes| && NextAt(Inserted(nodes, n, low[0]), i, k, j)
    ensures var nodes' := Inserted(nodes, n, low[0]);
      k < |nodes'| && j < |nodes'| && nodes'[k] in now && i < |now[nodes'[k]]| && now[nodes'[k]][i] == nodes'[j]
  {
    hide Ordered, Linked, Spliced, Below;
    var p := low[0];
    var nodes' := Inserted(nodes, n, p);
    LowIsLast(nodes, n, p, 0, p);
    assert nodes'[p + 1] == n;
    hide NextAt;
    if j == p + 1 {
      LevelOf(nodes', i, k, j);
      LastBefore(nodes, n, p, low[i], i, k);
      SplicedRead(nodes, f, low, n, lo, hi, now, k, i);
      assert nodes'[k] == nodes[k];
    } else if k == p + 1 {
      LevelOf(nodes', i, k, j);
      FirstAfter(nodes, n, p, low[i], i, j);
      SplicedNew(nodes, f, low, n, lo, hi, now, i);
      LinkedRead(nodes, f, i, low[i], j - 1);
      assert nodes'[j] == nodes[j - 1];
    } else {
      LevelOf(nodes', i, k, j);
      Elsewhere(nodes, n, p, i, k, j);
      if i < |low| {
        LowIsLast(nodes, n, p, i, low[i]);
        NotLast(nodes, i, Before(p, k), Before(p, j), low[i], p);
      }
      LinkedRead(nodes, f, i, Before(p, k), Before(p, j));
      SplicedRead(nodes, f, low, n, lo, hi, now, Before(p, k), i);
      assert nodes'[k] == nodes[Before(p, k)] && nodes'[j] == nodes[Before(p, j)];
    }
  }

  lemma LevelOf(nodes: seq<SkipNode>, i: nat, k: nat, j: nat)
    requires NextAt(nodes, i, k, j)
    ensures k < j < |nodes| && i <= nodes[k].level && i <= nodes[j].level
  {
  }

  // A node with a next one on level i up to p is not the last of that level up to p.
  lemma NotLast(nodes: seq<SkipNode>, i: nat, k: nat, j: nat, q: nat, p: nat)
    requires NextAt(nodes, i, k, j) && (j <= p || p < k) && q <= p < |nodes|
    requires forall m :: q < m <= p ==> nodes[m].level < i
    ensures k != q
  {
  }

  lemma LinkedRead(nodes: seq<SkipNode>, f: Forwards, i: nat, k: nat, j: nat)
    requires Linked(nodes, f) && NextAt(nodes, i, k, j)
    ensures k < j < |nodes| && nodes[k] in f && i < |f[nodes[k]]| && f[nodes[k]][i] == nodes[j]
  {
  }

  lemma SplicedRead(nodes: seq<SkipNode>, f: Forwards, low: seq<nat>, n: SkipNode, lo: nat, hi: nat, now: Forwards, k: nat, i: nat)
    requires Spliced(nodes, f, low, n, lo, hi, now) && hi <= lo && Linked(nodes, f)
    requires k < |nodes| && i <= nodes[k].level
    ensures nodes[k] in now && nodes[k] in f && |now[nodes[k]]| == |f[nodes[k]]| > i
    ensures now[nodes[k]][i] == if i < |low| && low[i] == k then n else f[nodes[k]][i]
  {
  }

  lemma SplicedNew(nodes: seq<SkipNode>, f: Forwards, low: seq<nat>, n: SkipNode, lo: nat, hi: nat, now: Forwards, i: nat)
    requires Spliced(nodes, f, low, n, lo, hi, now) && hi <= lo && i < |low|
    ensures n in now && |now[n]| == |low| && low[i] < |nodes| && nodes[low[i]] in f && i < |f[nodes[low[i]]]|
    ensures now[n][i] == f[nodes[low[i]]][i]
  {
  }

  lemma StopsHere(nodes: seq<SkipNode>, v: int32, i: nat, p: nat)
    requires Ordered(nodes) && i <= MAX_LEVEL && p < |nodes| - 1 && i <= nodes[p].level
    requires (p == 0 || nodes[p].value < v) && v <= nodes[NextIndex(nodes, i, p)].value
    ensures Below(nodes, v, i, p)
  {
    var j := NextIndex(nodes, i, p);
    forall k | p < k < |nodes| && i <= nodes[k].level ensures v <= nodes[k].value {
      assert j <= k;
    }
  }

  // Whether v is there is decided by the node right after the last one below it.
  lemma Located(nodes: seq<SkipNode>, v: int32, p: nat)
    requires Ordered(nodes) && Below(nodes, v, 0, p)
    ensures p < |nodes| - 1 && NextIndex(nodes, 0, p) == p + 1
    ensures nodes[p + 1].value == v <==> v in Values(nodes) || v == INT_MAX
  {
    if v in Values(nodes) {
      var k :| 1 <= k < |nodes| - 1 && nodes[k].value == v;
    }
  }

  function Reverse<T>(s: seq<T>): seq<T> {
    seq(|s|, k requires 0 <= k < |s| => s[|s| - 1 - k])
  }

  // ---------------------------------------------------------------------------------------
  // The levels as lists of their own

  // The nodes that reach level i.
  function OnLevel(nodes: seq<SkipNode>, i: nat): seq<SkipNode> {
    if nodes == [] then []
    else
      var last := nodes[|nodes| - 1];
      OnLevel(nodes[..|nodes| - 1], i) + if i <= last.level then [last] else []
  }

  // Where the nodes of level i stand: in order, each the next of that level after the one before.
  lemma {:induction false} Positions(nodes: seq<SkipNode>, i: nat, n: nat) returns (at: seq<nat>)
    requires Ordered(nodes) && i <= MAX_LEVEL && 0 < n <= |nodes|
    ensures var c := OnLevel(nodes[..n], i);
      && |c| == |at| > 0 && at[0] == 0
      && (forall m :: 0 <= m < |at| ==> at[m] < n && nodes[at[m]] == c[m])
      && (forall a, b :: 0 <= a < b < |at| ==> at[a] < at[b])
      && (forall m :: 0 <= m < |at| - 1 ==> NextAt(nodes, i, at[m], at[m + 1]))
      && i <= nodes[at[|at| - 1]].level
      && forall k :: at[|at| - 1] < k < n ==> nodes[k].level < i
  {
    assert nodes[..n][..n - 1] == nodes[..n - 1] && nodes[..n][n - 1] == nodes[n - 1];
    if n == 1 {
      at := [0];
      assert OnLevel(nodes[..1], i) == [nodes[0]];
    } else {
      at := Positions(nodes, i, n - 1);
      if i <= nodes[n - 1].level {
        assert NextAt(nodes, i, at[|at| - 1], n - 1);
        at := at + [n - 1];
      }
    }
  }

  lemma {:induction false} LevelsNest(nodes: seq<SkipNode>, i: nat, j: nat)
    requires i <= j
    ensures OnLevel(OnLevel(nodes, i), j) == OnLevel(nodes, j)
  {
    if nodes != [] {
      var init, last := nodes[..|nodes| - 1], nodes[|nodes| - 1];
      LevelsNest(init, i, j);
      if i <= last.level {
        assert OnLevel(nodes, i)[..|OnLevel(init, i)|] == OnLevel(init, i);
      } else {
        assert OnLevel(nodes, i) == OnLevel(init, i);
      }
    }
  }

  lemma {:induction false} LevelZeroIsAll(nodes: seq<SkipNode>)
    ensures OnLevel(nodes, 0) == nodes
  {
    if nodes != [] {
      LevelZeroIsAll(nodes[..|nodes| - 1]);
    }
  }

  lemma LevelOrder(nodes: seq<SkipNode>, i: nat) returns (at: seq<nat>)
    requires Ordered(nodes) && i <= MAX_LEVEL
    ensures var c := OnLevel(nodes, i);
      && |c| == |at| >= 2 && c[0] == nodes[0] && c[|c| - 1] == nodes[|nodes| - 1]
      && (forall m :: 0 <= m < |at| ==> at[m] < |nodes| && nodes[at[m]] == c[m])
      && (forall m :: 0 <= m < |at| - 1 ==> NextAt(nodes, i, at[m], at[m + 1]))
      && forall a, b :: 1 <= a < b < |c| ==> c[a].value < c[b].value
  {
    hide OnLevel, NextAt;
    at := Positions(nodes, i, |nodes|);
    assert nodes[..|nodes|] == nodes;
    assert at[|at| - 1] == |nodes| - 1;
    forall a, b | 1 <= a < b < |at| ensures nodes[at[a]].value < nodes[at[b]].value {
      assert 0 < at[a] < at[b];
    }
  }

  // On every level the forward pointers lead from head to tail, strictly increasing after the head,
  // each level is what is left of the one below, and level 0 is the whole list. The head's own value
  // is below that of the first node exactly when no node of the level holds INT_MIN.
  lemma LevelIsChain(list: SkipList, i: nat)
    requires list.Valid() && i <= MAX_LEVEL
    ensures var c := OnLevel(list.nodes, i);
      && |c| >= 2 && c[0] == list.head && c[|c| - 1] == list.tail
      && (forall m :: 0 <= m < |c| - 1 ==> i < |c[m].forward| && c[m].forward[i] == c[m + 1])
      && (forall a, b :: 1 <= a < b < |c| ==> c[a].value < c[b].value)
      && OnLevel(c, i + 1) == OnLevel(list.nodes, i + 1)
      && (i == 0 ==> c == list.nodes)
      && (c[0].value < c[1].value <==> INT_MIN !in Values(c))
    ensures list.nodes[0].value < list.nodes[1].value <==> INT_MIN !in list.Elements()
  {
    hide Ordered, Linked, NextAt, OnLevel, ForwardsOf;
    var nodes, f := list.nodes, ForwardsOf(NodeSet(list.nodes));
    var at := LevelOrder(nodes, i);
    forall m | 0 <= m < |at| - 1 ensures i < |nodes[at[m]].forward| && nodes[at[m]].forward[i] == nodes[at[m + 1]] {
      LinkedRead(nodes, f, i, at[m], at[m + 1]);
      ReadForward(nodes[at[m]], NodeSet(nodes));
    }
    LevelsNest(nodes, i, i + 1);
    LevelZeroIsAll(nodes);
    OrderedRead(nodes);
    FirstAboveHead(nodes);
    FirstAboveHead(OnLevel(nodes, i));
  }

  lemma OrderedRead(nodes: seq<SkipNode>)
    requires Ordered(nodes)
    ensures |nodes| >= 2 && nodes[0].value == INT_MIN && nodes[|nodes| - 1].value == INT_MAX
    ensures forall a, b :: 1 <= a < b < |nodes| ==> nodes[a].value < nodes[b].value
  {
  }

  lemma FirstAboveHead(c: seq<SkipNode>)
    requires |c| >= 2 && c[0].value == INT_MIN && c[|c| - 1].value == INT_MAX
    requires forall a, b :: 1 <= a < b < |c| ==> c[a].value < c[b].value
    ensures c[0].value < c[1].value <==> INT_MIN !in Values(c)
  {
    if INT_MIN in Values(c) {
      var k :| 1 <= k < |c| - 1 && c[k].value == INT_MIN;
      var first := c[1].value;
      assert first <= c[k].value;
    } else if |c| > 2 {
      assert c[1].value in Values(c);
    }
  }
}
