// misc/struct/list.h: merge sort of a singly linked list by relinking its nodes.
module ListSorts {

  class ListNode {
    const value: int
    var next: ListNode?

    constructor (value: int)
      ensures this.value == value && next == null
    {
      this.value, next := value, null;
    }
  }

  type Nodes = seq<ListNode>

  // ---------------------------------------------------------------------------------------
  // Sequences of nodes

  function Least(a: nat, b: nat): nat {
    if a <= b then a else b
  }

  // Of two equal values the right one goes first.
  ghost function Merged(a: Nodes, b: Nodes): (r: Nodes)
    ensures |r| == |a| + |b|
  {
    if a == [] then b
    else if b == [] then a
    else if a[0].value < b[0].value then [a[0]] + Merged(a[1..], b)
    else [b[0]] + Merged(a, b[1..])
  }

  // One pass of the bottom-up sort merges neighbouring runs of n nodes.
  ghost function Pass(s: Nodes, n: nat): (r: Nodes)
    requires n > 0
    ensures |r| == |s|
  {
    if s == [] then []
    else
      var i, j := Least(n, |s|), Least(2 * n, |s|);
      Merged(s[..i], s[i..j]) + Pass(s[j..], n)
  }

  ghost function BottomUp(s: Nodes, n: nat): (r: Nodes)
    requires n > 0
    ensures |r| == |s|
    decreases if n < |s| then |s| - n else 0
  {
    if n < |s| then BottomUp(Pass(s, n), 2 * n) else s
  }

  ghost function TopDown(s: Nodes): (r: Nodes)
    ensures |r| == |s|
  {
    if |s| < 2 then s
    else
      var mid := (|s| + 1) / 2;
      Merged(TopDown(s[..mid]), TopDown(s[mid..]))
  }

  ghost predicate Sorted(s: Nodes) {
    forall i, j :: 0 <= i < j < |s| ==> s[i].value <= s[j].value
  }

  // A sequence of sorted runs of n nodes, the last of which may be shorter.
  ghost predicate Runs(s: Nodes, n: nat)
    requires n > 0
  {
    s == [] || (Sorted(s[..Least(n, |s|)]) && Runs(s[Least(n, |s|)..], n))
  }

  lemma SplitCount<T>(s: seq<T>, k: nat)
    requires k <= |s|
    ensures multiset(s) == multiset(s[..k]) + multiset(s[k..])
  {
    assert s == s[..k] + s[k..];
  }

  lemma FirstCount<T>(x: T, s: seq<T>)
    ensures multiset([x] + s) == multiset{x} + multiset(s)
  {
  }

  lemma HeadCount<T>(s: seq<T>)
    requires s != []
    ensures multiset(s) == multiset{s[0]} + multiset(s[1..])
  {
    assert s == [s[0]] + s[1..];
  }

  lemma {:induction false} MergedMultiset(a: Nodes, b: Nodes)
    ensures multiset(Merged(a, b)) == multiset(a) + multiset(b)
  {
    if a != [] && b != [] {
      if a[0].value < b[0].value {
        MergedMultiset(a[1..], b);
        HeadCount(a);
        FirstCount(a[0], Merged(a[1..], b));
      } else {
        MergedMultiset(a, b[1..]);
        HeadCount(b);
        FirstCount(b[0], Merged(a, b[1..]));
      }
    }
  }

  lemma {:induction false} MergedSorted(a: Nodes, b: Nodes)
    requires Sorted(a) && Sorted(b)
    ensures Sorted(Merged(a, b))
  {
    if a != [] && b != [] {
      var r := Merged(a, b);
      if a[0].value < b[0].value {
        MergedSorted(a[1..], b);
        MergedMultiset(a[1..], b);
        FirstLeast(a[0], Merged(a[1..], b), a[1..], b);
      } else {
        MergedSorted(a, b[1..]);
        MergedMultiset(a, b[1..]);
        FirstLeast(b[0], Merged(a, b[1..]), a, b[1..]);
      }
    }
  }

  lemma FirstLeast(x: ListNode, r: Nodes, a: Nodes, b: Nodes)
    requires multiset(r) == multiset(a) + multiset(b) && Sorted(r)
    requires (forall y :: y in a ==> x.value <= y.value) && forall y :: y in b ==> x.value <= y.value
    ensures Sorted([x] + r)
  {
    forall j | 0 <= j < |r| ensures x.value <= r[j].value {
      assert r[j] in multiset(r);
    }
  }

  lemma {:induction false} PassMultiset(s: Nodes, n: nat)
    requires n > 0
    ensures multiset(Pass(s, n)) == multiset(s)
  {
    if s != [] {
      var i, j := Least(n, |s|), Least(2 * n, |s|);
      PassMultiset(s[j..], n);
      MergedMultiset(s[..i], s[i..j]);
      SplitCount(s, j);
      SplitCount(s[..j], i);
      assert s[..j][..i] == s[..i] && s[..j][i..] == s[i..j];
      var first, more := Merged(s[..i], s[i..j]), Pass(s[j..], n);
      SplitCount(first + more, |first|);
      assert (first + more)[..|first|] == first && (first + more)[|first|..] == more;
    }
  }

  // After a pass of width n the list consists of sorted runs of twice that length.
  lemma {:induction false} PassDoublesRuns(s: Nodes, n: nat)
    requires n > 0 && Runs(s, n)
    ensures Runs(Pass(s, n), 2 * n)
    decreases |s|
  {
    if s != [] {
      var i, j := Least(n, |s|), Least(2 * n, |s|);
      var rest := s[i..];
      assert rest != [] ==> rest[..Least(n, |rest|)] == s[i..j] && rest[Least(n, |rest|)..] == s[j..];
      assert Sorted(s[i..j]) && Runs(s[j..], n) by {
        if rest == [] { assert s[i..j] == [] && s[j..] == []; }
      }
      MergedSorted(s[..i], s[i..j]);
      PassDoublesRuns(s[j..], n);
      var first, more := Merged(s[..i], s[i..j]), Pass(s[j..], n);
      assert Pass(s, n) == first + more;
      assert (first + more)[..Least(2 * n, |first + more|)] == first && (first + more)[Least(2 * n, |first + more|)..] == more;
    }
  }

  lemma {:induction false} SingleRuns(s: Nodes)
    ensures Runs(s, 1)
  {
    if s != [] {
      SingleRuns(s[1..]);
    }
  }

  lemma {:induction false} BottomUpSorts(s: Nodes, n: nat)
    requires n > 0 && Runs(s, n)
    ensures Sorted(BottomUp(s, n)) && multiset(BottomUp(s, n)) == multiset(s)
    decreases if n < |s| then |s| - n else 0
  {
    if n < |s| {
      PassDoublesRuns(s, n);
      PassMultiset(s, n);
      BottomUpSorts(Pass(s, n), 2 * n);
    } else {
      assert s[..|s|] == s;
    }
  }

  lemma {:induction false} TopDownSorts(s: Nodes)
    ensures Sorted(TopDown(s)) && multiset(TopDown(s)) == multiset(s)
  {
    if |s| >= 2 {
      var mid := (|s| + 1) / 2;
      TopDownSorts(s[..mid]);
      TopDownSorts(s[mid..]);
      hide Merged, Sorted;
      MergedSorted(TopDown(s[..mid]), TopDown(s[mid..]));
      MergedMultiset(TopDown(s[..mid]), TopDown(s[mid..]));
      SplitCount(s, mid);
    }
  }

  // ---------------------------------------------------------------------------------------
  // Equal values

  // The nodes with value v, in order.
  ghost function WithValue(s: Nodes, v: int): Nodes {
    if s == [] then [] else (if s[0].value == v then [s[0]] else []) + WithValue(s[1..], v)
  }

  ghost function Reversed(s: Nodes): (r: Nodes)
    ensures |r| == |s| && forall i :: 0 <= i < |s| ==> r[i] == s[|s| - 1 - i]
  {
    if s == [] then [] else Reversed(s[1..]) + [s[0]]
  }

  lemma {:induction false} WithValueSum(s: Nodes, t: Nodes, v: int)
    ensures WithValue(s + t, v) == WithValue(s, v) + WithValue(t, v)
  {
    if s == [] {
      assert s + t == t;
    } else {
      var st, first := s + t, if s[0].value == v then [s[0]] else [];
      assert st[0] == s[0] && st[1..] == s[1..] + t;
      WithValueSum(s[1..], t, v);
      assert WithValue(st, v) == first + WithValue(st[1..], v) && WithValue(s, v) == first + WithValue(s[1..], v);
      hide WithValue;
      assert first + (WithValue(s[1..], v) + WithValue(t, v)) == first + WithValue(s[1..], v) + WithValue(t, v);
    }
  }

  lemma {:induction false} NoneWithValue(s: Nodes, v: int)
    requires forall x :: x in s ==> x.value != v
    ensures WithValue(s, v) == []
  {
    if s != [] {
      NoneWithValue(s[1..], v);
    }
  }

  lemma {:induction false} InWithValue(s: Nodes, v: int, x: ListNode)
    ensures x in WithValue(s, v) <==> x in s && x.value == v
  {
    if s != [] {
      InWithValue(s[1..], v, x);
    }
  }

  lemma ReversedSum(s: Nodes, t: Nodes)
    ensures Reversed(s + t) == Reversed(t) + Reversed(s)
  {
    var r, q := Reversed(s + t), Reversed(t) + Reversed(s);
    hide Reversed;
    forall i | 0 <= i < |r| ensures r[i] == q[i] {
    }
  }

  // A merge puts the nodes of one value from the right list before those from the left.
  lemma {:induction false} MergedWithValue(a: Nodes, b: Nodes, v: int)
    requires Sorted(a) && Sorted(b)
    ensures WithValue(Merged(a, b), v) == WithValue(b, v) + WithValue(a, v)
    decreases |a| + |b|
  {
    if a != [] && b != [] {
      hide WithValue;
      MergedStep(a, b);
      hide Merged;
      if a[0].value < b[0].value {
        MergedWithValue(a[1..], b, v);
        FirstWithValue(a[0], Merged(a[1..], b), v);
        FirstWithValue(a[0], a[1..], v);
        assert [a[0]] + a[1..] == a;
        if a[0].value == v {
          NoneWithValue(b, v);
        }
        InFrontOf(if a[0].value == v then [a[0]] else [], WithValue(b, v), WithValue(a[1..], v));
      } else {
        MergedWithValue(a, b[1..], v);
        FirstWithValue(b[0], Merged(a, b[1..]), v);
        FirstWithValue(b[0], b[1..], v);
        assert [b[0]] + b[1..] == b;
        InTurn(if b[0].value == v then [b[0]] else [], WithValue(b[1..], v), WithValue(a, v));
      }
    }
  }

  lemma InFrontOf(f: Nodes, s: Nodes, t: Nodes)
    requires f == [] || s == []
    ensures f + (s + t) == s + (f + t)
  {
  }

  lemma InTurn(f: Nodes, s: Nodes, t: Nodes)
    ensures f + (s + t) == f + s + t
  {
  }

  lemma FirstWithValue(x: ListNode, s: Nodes, v: int)
    ensures WithValue([x] + s, v) == (if x.value == v then [x] else []) + WithValue(s, v)
  {
  }

  // s is a rearrangement of s0 that reverses the nodes of each value.
  ghost predicate Turns(s: Nodes, s0: Nodes) {
    forall v: int :: WithValue(s, v) == Reversed(WithValue(s0, v))
  }

  // Merging two rearrangements that turn gives one that turns.
  lemma MergedTurns(a: Nodes, b: Nodes, a0: Nodes, b0: Nodes)
    requires Sorted(a) && Sorted(b) && Turns(a, a0) && Turns(b, b0)
    ensures Turns(Merged(a, b), a0 + b0)
  {
    hide WithValue, Merged, Sorted, Reversed;
    forall v: int ensures WithValue(Merged(a, b), v) == Reversed(WithValue(a0 + b0, v)) {
      MergedWithValue(a, b, v);
      WithValueSum(a0, b0, v);
      ReversedSum(WithValue(a0, v), WithValue(b0, v));
    }
  }

  // The same block by block.
  ghost predicate TurnsBlocks(s: Nodes, s0: Nodes, n: nat)
    requires n > 0
  {
    && |s| == |s0|
    && (s == [] ||
        var i := Least(n, |s|);
        Turns(s[..i], s0[..i]) && TurnsBlocks(s[i..], s0[i..], n))
  }

  lemma {:induction false} SinglesTurn(s: Nodes)
    ensures TurnsBlocks(s, s, 1)
  {
    if s != [] {
      SinglesTurn(s[1..]);
      ShortTurns(s[..1]);
    }
  }

  // A pass of width n turns what was turned in blocks of n into what is turned in blocks of 2n.
  lemma {:induction false} PassTurns(s: Nodes, s0: Nodes, n: nat)
    requires n > 0 && Runs(s, n) && TurnsBlocks(s, s0, n)
    ensures TurnsBlocks(Pass(s, n), s0, 2 * n)
    decreases |s|
  {
    if s != [] {
      hide Merged, Pass, Turns, Sorted, Runs, TwoRuns;
      var (l, r, rest) := TwoRuns(s, n);
      var (l0, r0, rest0) := TwoRuns(s0, n);
      var k := Least(2 * n, |s|);
      TwoBlocks(s, s0, n);
      PassTurns(rest, rest0, n);
      MergedTurns(l, r, l0, r0);
      TwoRunsPass(s, n);
      TwoRunsAre(s, n);
      TwoRunsAre(s0, n);
      SlicesOfRest(s0, Least(n, |s0|), k);
      BlocksJoined(Merged(l, r), Pass(rest, n), s0, k, n);
    }
  }

  lemma BlocksJoined(m: Nodes, p: Nodes, s0: Nodes, k: nat, n: nat)
    requires n > 0 && s0 != [] && k == Least(2 * n, |s0|) == |m| && |m + p| == |s0|
    requires Turns(m, s0[..k]) && TurnsBlocks(p, s0[k..], 2 * n)
    ensures TurnsBlocks(m + p, s0, 2 * n)
  {
    hide Turns;
    assert (m + p)[..k] == m && (m + p)[k..] == p;
  }

  lemma TwoBlocks(s: Nodes, s0: Nodes, n: nat)
    requires n > 0 && s != [] && Runs(s, n) && TurnsBlocks(s, s0, n)
    ensures var (l, r, rest) := TwoRuns(s, n);
      var (l0, r0, rest0) := TwoRuns(s0, n);
      && Sorted(l) && Sorted(r) && Runs(rest, n) && |rest| < |s|
      && Turns(l, l0) && Turns(r, r0) && TurnsBlocks(rest, rest0, n)
  {
    hide Turns, Sorted;
    var (l, r, rest) := TwoRuns(s, n);
    var (l0, r0, rest0) := TwoRuns(s0, n);
    if r == [] {
      assert l == s && l0 == s0 && r0 == [] && rest == rest0 == [];
      NothingTurns();
    }
  }

  lemma NothingTurns()
    ensures Turns([], []) && Sorted([])
  {
  }

  lemma {:induction false} BottomUpTurns(s: Nodes, s0: Nodes, n: nat)
    requires n > 0 && Runs(s, n) && TurnsBlocks(s, s0, n)
    ensures Turns(BottomUp(s, n), s0)
    decreases if n < |s| then |s| - n else 0
  {
    if n < |s| {
      PassDoublesRuns(s, n);
      PassTurns(s, s0, n);
      BottomUpTurns(Pass(s, n), s0, 2 * n);
    } else if s == [] {
      NothingTurns();
    } else {
      assert s[..|s|] == s && s0[..|s|] == s0;
    }
  }

  lemma ShortTurns(s: Nodes)
    requires |s| < 2
    ensures Turns(s, s)
  {
    forall v: int ensures WithValue(s, v) == Reversed(WithValue(s, v)) {
      NotLonger(s, v);
      hide WithValue;
      ShortReversed(WithValue(s, v));
    }
  }

  lemma {:induction false} NotLonger(s: Nodes, v: int)
    ensures |WithValue(s, v)| <= |s|
  {
    if s != [] {
      NotLonger(s[1..], v);
    }
  }

  lemma ShortReversed(s: Nodes)
    requires |s| < 2
    ensures Reversed(s) == s
  {
  }

  lemma {:induction false} TopDownTurns(s: Nodes)
    ensures Turns(TopDown(s), s)
  {
    if |s| < 2 {
      ShortTurns(s);
    } else {
      var mid := (|s| + 1) / 2;
      TopDownTurns(s[..mid]);
      TopDownTurns(s[mid..]);
      TopDownSorts(s[..mid]);
      TopDownSorts(s[mid..]);
      hide Turns, Sorted, WithValue, Reversed, Merged;
      MergedTurns(TopDown(s[..mid]), TopDown(s[mid..]), s[..mid], s[mid..]);
      assert s[..mid] + s[mid..] == s;
    }
  }

  // A sorted sequence is determined by its nodes of each value.
  lemma {:induction false} SortedUnique(s: Nodes, t: Nodes)
    requires Sorted(s) && Sorted(t) && |s| == |t| && forall v: int :: WithValue(s, v) == WithValue(t, v)
    ensures s == t
    decreases |s|
  {
    if s != [] {
      InWithValue(s, s[0].value, s[0]);
      InWithValue(t, s[0].value, s[0]);
      InWithValue(t, t[0].value, t[0]);
      InWithValue(s, t[0].value, t[0]);
      assert s[0].value == t[0].value;
      var x, y := s[0], t[0];
      assert s == [x] + s[1..] && t == [y] + t[1..];
      assert WithValue(s, x.value)[0] == x && WithValue(t, x.value)[0] == y;
      forall v: int ensures WithValue(s[1..], v) == WithValue(t[1..], v) {
        assert WithValue(s, v) == WithValue(t, v);
        SameAfterFirst(x, s[1..], t[1..], v);
      }
      SortedUnique(s[1..], t[1..]);
    }
  }

  lemma SameAfterFirst(x: ListNode, s: Nodes, t: Nodes, v: int)
    requires WithValue([x] + s, v) == WithValue([x] + t, v)
    ensures WithValue(s, v) == WithValue(t, v)
  {
    hide WithValue;
    FirstWithValue(x, s, v);
    FirstWithValue(x, t, v);
    WithoutFirst(if x.value == v then [x] else [], WithValue(s, v), WithValue(t, v));
  }

  lemma WithoutFirst(f: Nodes, s: Nodes, t: Nodes)
    requires f + s == f + t
    ensures s == t
  {
    assert (f + s)[|f|..] == s && (f + t)[|f|..] == t;
  }

  // Sorting t out of s keeps the order of nodes with equal values.
  ghost predicate Stable(t: Nodes, s: Nodes) {
    forall v: int :: WithValue(t, v) == WithValue(s, v)
  }

  ghost predicate NoEqualValues(s: Nodes) {
    forall i, j :: 0 <= i < j < |s| ==> s[i].value != s[j].value
  }

  lemma {:induction false} AtMostOne(s: Nodes, v: int)
    requires NoEqualValues(s)
    ensures |WithValue(s, v)| <= 1
  {
    if s != [] {
      AtMostOne(s[1..], v);
      if s[0].value == v {
        NoneWithValue(s[1..], v);
      }
    }
  }

  lemma {:induction false} WithValueDistinct(s: Nodes, v: int)
    requires Distinct(s)
    ensures Distinct(WithValue(s, v))
  {
    if s != [] {
      var r := s[1..];
      WithValueDistinct(r, v);
      InWithValue(r, v, s[0]);
    }
  }

  // A rearrangement that turns is stable if and only if it has nothing to turn.
  lemma TurnsStable(t: Nodes, s: Nodes)
    requires Turns(t, s) && Distinct(s)
    ensures Stable(t, s) <==> NoEqualValues(s)
  {
    if NoEqualValues(s) {
      forall v: int ensures WithValue(t, v) == WithValue(s, v) {
        AtMostOne(s, v);
      }
    } else {
      var i, j :| 0 <= i < j < |s| && s[i].value == s[j].value;
      var v := s[i].value;
      InWithValue(s, v, s[i]);
      InWithValue(s, v, s[j]);
      WithValueDistinct(s, v);
      var w := WithValue(s, v);
      assert |w| >= 2;
      assert Reversed(w)[0] == w[|w| - 1] != w[0];
      assert WithValue(t, v) == Reversed(w);
    }
  }

  // Both sorts give the same list: sorted, and with the nodes of each value in reversed order.
  lemma SortsAgree(s: Nodes)
    ensures Sorted(BottomUp(s, 1)) && multiset(BottomUp(s, 1)) == multiset(s)
    ensures BottomUp(s, 1) == TopDown(s) && Turns(TopDown(s), s)
  {
    SingleRuns(s);
    SinglesTurn(s);
    BottomUpSorts(s, 1);
    BottomUpTurns(s, s, 1);
    TopDownSorts(s);
    TopDownTurns(s);
    SortedUnique(BottomUp(s, 1), TopDown(s));
  }

  // They are stable if and only if no two nodes have equal values.
  lemma StableExactly(s: Nodes)
    requires Distinct(s)
    ensures Stable(BottomUp(s, 1), s) <==> NoEqualValues(s)
    ensures Stable(TopDown(s), s) <==> NoEqualValues(s)
  {
    hide Turns, Stable, NoEqualValues;
    SortsAgree(s);
    TurnsStable(TopDown(s), s);
  }

  // ---------------------------------------------------------------------------------------
  // Lists in the heap

  ghost predicate Distinct(s: Nodes) {
    forall i, j :: 0 <= i < j < |s| ==> s[i] != s[j]
  }

  ghost predicate Linked(s: Nodes)
    reads s
  {
    forall i, j :: 0 <= i < j < |s| && j == i + 1 ==> s[i].next == s[j]
  }

  // The nodes reached from node are s, in order, and then the list ends.
  ghost predicate Chain(node: ListNode?, s: Nodes)
    reads s
  {
    && Distinct(s) && Linked(s)
    && node == (if s == [] then null else s[0])
    && (s != [] ==> s[|s| - 1].next == null)
  }

  ghost predicate Disjoint(s: Nodes, t: Nodes) {
    forall i, j :: 0 <= i < |s| && 0 <= j < |t| ==> s[i] != t[j]
  }

  // A chain without its end: p is the last node of d.
  ghost predicate Open(d: Nodes, p: ListNode)
    reads d
  {
    Distinct(d) && Linked(d) && d != [] && p == d[|d| - 1]
  }

  lemma Rest(node: ListNode, s: Nodes)
    requires Chain(node, s)
    ensures s != [] && s[0] == node && Chain(node.next, s[1..]) && node !in s[1..] && s == [s[0]] + s[1..]
  {
    var r := s[1..];
    assert |s| > 1 ==> s[0].next == s[1];
    forall i, j | 0 <= i < j < |r| && j == i + 1 ensures r[i].next == r[j] {
      assert r[i] == s[i + 1] && r[j] == s[j + 1];
    }
  }

  lemma Joined(d: Nodes, p: ListNode, node: ListNode?, r: Nodes)
    requires Open(d, p) && Chain(node, r) && Disjoint(d, r) && p.next == node
    ensures Chain(d[0], d + r)
  {
    var s := d + r;
    forall i, j | 0 <= i < j < |s| ensures s[i] != s[j] && (j == i + 1 ==> s[i].next == s[j]) {
      assert i < |d| ==> s[i] in d;
      assert j >= |d| ==> s[j] in r;
    }
  }

  // Moves the first node of a chain to the end of an open one; other is a third chain.
  method Attach(ghost d: Nodes, p: ListNode, x: ListNode, ghost r: Nodes, ghost y: ListNode?, ghost other: Nodes)
    requires Open(d, p) && Chain(x, r) && Disjoint(d, r)
    requires Chain(y, other) && Disjoint(d, other) && (Disjoint(r, other) || Disjoint(other, r))
    modifies p`next
    ensures p.next == x && Open(d + [x], x) && Chain(x, r) && Chain(x.next, r[1..])
    ensures Disjoint(d + [x], r[1..])
    ensures Chain(y, other) && Disjoint(d + [x], other) && Disjoint(r[1..], other) && Disjoint(other, r[1..])
  {
    Rest(x, r);
    assert p in d;
    p.next := x;
    ghost var e := d + [x];
    forall i, j | 0 <= i < j < |e| ensures e[i] != e[j] && (j == i + 1 ==> e[i].next == e[j]) {
      assert e[i] in d;
    }
  }

  lemma MergedStep(a: Nodes, b: Nodes)
    requires a != [] && b != []
    ensures a[0].value < b[0].value ==> Merged(a, b) == [a[0]] + Merged(a[1..], b)
    ensures a[0].value >= b[0].value ==> Merged(a, b) == [b[0]] + Merged(a, b[1..])
  {
  }

  lemma MergedEnd(a: Nodes, b: Nodes)
    requires a == [] || b == []
    ensures Merged(a, b) == if a != [] then a else b
  {
  }

  ghost predicate Within(s: Nodes, t: Nodes) {
    forall i :: 0 <= i < |s| ==> s[i] in t
  }

  lemma AfterFirst(s: Nodes, x: ListNode, m: Nodes)
    requires s == [x] + m
    ensures s[1..] == m && |s| == |m| + 1
  {
  }

  // Returns the first and the last node of the merged list.
  method Merge(lhs0: ListNode?, rhs0: ListNode?, ghost a: Nodes, ghost b: Nodes) returns (first: ListNode, last: ListNode)
    requires Chain(lhs0, a) && Chain(rhs0, b) && Disjoint(a, b) && (a != [] || b != [])
    modifies a, b
    ensures Chain(first, Merged(a, b)) && last == Merged(a, b)[|a| + |b| - 1]
  {
    hide Merged, Chain, Open, Disjoint;
    var lhs, rhs := lhs0, rhs0;
    var dummy := new ListNode(0);
    var p: ListNode := dummy;
    ghost var d: Nodes := [dummy];
    ghost var a', b' := a, b;
    OpenOne(dummy);
    OneApart(dummy, a);
    OneApart(dummy, b);
    while lhs != null && rhs != null
      invariant Chain(lhs, a') && Chain(rhs, b') && Disjoint(a', b')
      invariant Open(d, p) && d != [] && d[0] == dummy && Disjoint(d, a') && Disjoint(d, b')
      invariant [dummy] + Merged(a, b) == d + Merged(a', b')
      invariant forall x :: (x in d && x != dummy) || x in a' || x in b' ==> x in a || x in b
      decreases |a'| + |b'|
    {
      OpenEnd(d, p);
      Rest(lhs, a');
      Rest(rhs, b');
      MergedStep(a', b');
      if lhs.value < rhs.value {
        Attach(d, p, lhs, a', rhs, b');
        Regroup(d, lhs, Merged(a'[1..], b'));
        p := lhs;
        d := d + [lhs];
        lhs := lhs.next;
        a' := a'[1..];
      } else {
        Attach(d, p, rhs, b', lhs, a');
        Regroup(d, rhs, Merged(a', b'[1..]));
        p := rhs;
        d := d + [rhs];
        rhs := rhs.next;
        b' := b'[1..];
      }
    }
    OpenEnd(d, p);
    Empty(lhs, a');
    Empty(rhs, b');
    MergedEnd(a', b');
    ghost var r := if a' != [] then a' else b';
    AfterFirst(d + r, dummy, Merged(a, b));
    last := Close(d, p, if lhs != null then lhs else rhs, r);
    first := dummy.next;
  }

  // Ends an open chain with another one; returns the last node.
  method Close(ghost d: Nodes, p: ListNode, node: ListNode?, ghost r: Nodes) returns (last: ListNode)
    requires Open(d, p) && Chain(node, r) && Disjoint(d, r)
    modifies p`next
    ensures Chain(d[0].next, (d + r)[1..]) && last == (d + r)[|d| + |r| - 1]
  {
    assert p in d;
    p.next := node;
    Joined(d, p, node, r);
    last := LastFrom(p, d + r, |d| - 1);
    Rest(d[0], d + r);
  }

  lemma Regroup(d: Nodes, x: ListNode, m: Nodes)
    ensures d + ([x] + m) == d + [x] + m
  {
  }

  lemma OpenEnd(d: Nodes, p: ListNode)
    requires Open(d, p)
    ensures p in d
  {
  }

  lemma Empty(node: ListNode?, s: Nodes)
    requires Chain(node, s)
    ensures node == null <==> s == []
  {
  }

  lemma OpenOne(x: ListNode)
    ensures Open([x], x)
  {
  }

  method LastFrom(p0: ListNode, ghost s: Nodes, ghost k: nat) returns (p: ListNode)
    requires k < |s| && p0 == s[k] && Chain(s[0], s)
    ensures p == s[|s| - 1]
  {
    p := p0;
    ghost var i := k;
    while p.next != null
      invariant k <= i < |s| && p == s[i] && (i + 1 < |s| ==> p.next == s[i + 1])
      decreases |s| - i
    {
      p := p.next;
      i := i + 1;
    }
  }

  lemma MergedMembers(a: Nodes, b: Nodes, m: Nodes)
    requires Disjoint(a, b) && Distinct(a) && Distinct(b) && m == Merged(a, b)
    ensures forall x :: x in m <==> x in a || x in b
  {
    MergedMultiset(a, b);
    forall x ensures x in m <==> x in a || x in b {
      assert x in multiset(m) <==> x in multiset(a) + multiset(b);
    }
  }

  lemma CutAt(s: Nodes, node: ListNode?, k: nat)
    requires Chain(node, s) && k < |s|
    ensures Distinct(s[..k + 1]) && Linked(s[..k + 1]) && Chain(s[k].next, s[k + 1..])
    ensures s[k] !in s[..k] && s[k] !in s[k + 1..]
  {
    var r := s[k + 1..];
    assert k + 1 < |s| ==> s[k].next == s[k + 1];
    forall i, j | 0 <= i < j < |r| && j == i + 1 ensures r[i].next == r[j] {
      assert r[i] == s[k + 1 + i] && r[j] == s[k + 1 + j];
    }
  }

  // Ends a list after its k-th node.
  method Cut(node: ListNode, x: ListNode, ghost s: Nodes, ghost k: nat) returns (rest: ListNode?)
    requires Chain(node, s) && k < |s| && s[k] == x
    modifies x`next
    ensures Chain(node, s[..k + 1]) && Chain(rest, s[k + 1..])
  {
    CutAt(s, node, k);
    rest := x.next;
    x.next := null;
  }

  // Cuts a list after n nodes and returns what follows, if it is that long.
  method Split(node0: ListNode?, n0: nat, ghost s: Nodes) returns (rest: ListNode?)
    requires Chain(node0, s) && n0 > 0
    modifies s
    ensures Chain(node0, s[..Least(n0, |s|)]) && Chain(rest, s[Least(n0, |s|)..])
  {
    var node, n := node0, n0 - 1;
    ghost var i := 0;
    while n != 0 && node != null
      invariant 0 <= i <= |s| && n == n0 - 1 - i
      invariant node == if i < |s| then s[i] else null
    {
      assert i + 1 < |s| ==> s[i].next == s[i + 1];
      node := node.next;
      n := n - 1;
      i := i + 1;
    }
    rest := null;
    if node != null {
      rest := Cut(node0, node, s, i);
    } else {
      assert s[..|s|] == s && s[|s|..] == [];
    }
  }

  // Puts a whole list at the end of an open chain.
  method AttachAll(ghost d: Nodes, tail: ListNode, first: ListNode, last: ListNode, ghost m: Nodes)
    requires Open(d, tail) && Chain(first, m) && m != [] && last == m[|m| - 1] && Disjoint(d, m)
    modifies tail`next
    ensures Open(d + m, last) && last.next == null
  {
    assert tail in d;
    tail.next := first;
    Joined(d, tail, first, m);
  }

  lemma Ended(d: Nodes, tail: ListNode)
    requires Open(d, tail) && tail.next == null
    ensures Chain(d[0], d)
  {
  }

  lemma PartsApart(s: Nodes, k: nat)
    requires Distinct(s) && k <= |s|
    ensures Disjoint(s[..k], s[k..]) && Distinct(s[..k]) && Distinct(s[k..])
    ensures (forall x :: x in s[..k] ==> x in s) && forall x :: x in s[k..] ==> x in s
  {
    forall i | 0 <= i < k ensures s[i] !in s[k..] {
    }
  }

  lemma ChainDistinct(node: ListNode?, s: Nodes)
    requires Chain(node, s)
    ensures Distinct(s) && (s != [] ==> node == s[0])
  {
  }

  // The runs that one turn of a pass merges, and what it leaves.
  ghost function TwoRuns(s: Nodes, n: nat): (Nodes, Nodes, Nodes) {
    var i := Least(n, |s|);
    var j := Least(n, |s[i..]|);
    (s[..i], s[i..][..j], s[i..][j..])
  }

  lemma TwoRunsApart(s: Nodes, n: nat, l: Nodes, r: Nodes, rest: Nodes, m: Nodes)
    requires Distinct(s) && n > 0 && s != [] && TwoRuns(s, n) == (l, r, rest) && m == Merged(l, r)
    ensures Disjoint(l, r) && Disjoint(l, rest) && Disjoint(r, rest) && Disjoint(l, s[|l|..]) && l != [] && |rest| < |s|
    ensures Within(l, s) && Within(r, s) && Within(rest, s) && Within(s[|l|..], s)
    ensures m != [] && Disjoint(m, rest) && Within(m, s)
  {
    hide Merged, Distinct;
    PartsApart(s, |l|);
    PartsApart(s[|l|..], |r|);
    hide Disjoint;
    WithinBoth(l, r, rest, s);
    MergedWithin(l, r, m, s);
    MergedApart(l, r, m, rest);
  }

  lemma WithinBoth(l: Nodes, r: Nodes, rest: Nodes, s: Nodes)
    requires s == l + (r + rest)
    requires Disjoint(l, r + rest)
    ensures Within(l, s) && Within(r, s) && Within(rest, s) && Within(r + rest, s)
    ensures Disjoint(l, r) && Disjoint(l, rest)
  {
    forall i | 0 <= i < |r + rest| ensures (r + rest)[i] in s {
      assert s[|l| + i] == (r + rest)[i];
    }
    forall i | 0 <= i < |r| ensures r[i] == (r + rest)[i] {
    }
    forall i | 0 <= i < |rest| ensures rest[i] == (r + rest)[|r| + i] {
    }
  }

  lemma MergedWithin(l: Nodes, r: Nodes, m: Nodes, s: Nodes)
    requires Disjoint(l, r) && Distinct(l) && Distinct(r) && m == Merged(l, r) && Within(l, s) && Within(r, s)
    ensures Within(m, s)
  {
    MergedMembers(l, r, m);
    hide Merged, Disjoint, Distinct;
    forall i | 0 <= i < |m| ensures m[i] in s {
      assert m[i] in m;
    }
  }

  lemma MergedApart(l: Nodes, r: Nodes, m: Nodes, rest: Nodes)
    requires Disjoint(l, r) && Distinct(l) && Distinct(r) && m == Merged(l, r)
    requires Disjoint(l, rest) && Disjoint(r, rest)
    ensures Disjoint(m, rest)
  {
    MergedMembers(l, r, m);
    hide Merged, Distinct;
    forall i, j | 0 <= i < |m| && 0 <= j < |rest| ensures m[i] != rest[j] {
      assert m[i] in m;
    }
  }

  lemma Apart(d: Nodes, s: Nodes, m: Nodes)
    requires Disjoint(d, s) && Within(m, s)
    ensures Disjoint(d, m)
  {
  }

  lemma WithinWithin(r: Nodes, s: Nodes, t: Nodes)
    requires Within(r, s) && Within(s, t)
    ensures Within(r, t)
  {
  }

  lemma BothApart(d: Nodes, m: Nodes, r: Nodes)
    requires Disjoint(d, r) && Disjoint(m, r)
    ensures Disjoint(d + m, r)
  {
  }

  lemma SlicesOfRest(s: Nodes, i: nat, j: nat)
    requires i <= j <= |s|
    ensures s[i..][..j - i] == s[i..j] && s[i..][j - i..] == s[j..] && |s[i..]| == |s| - i
    ensures s[..i] + s[i..j] == s[..j]
  {
  }

  lemma TwoRunsAre(s: Nodes, n: nat)
    requires n > 0
    ensures var i, j := Least(n, |s|), Least(2 * n, |s|);
      TwoRuns(s, n) == (s[..i], s[i..j], s[j..])
  {
    SlicesOfRest(s, Least(n, |s|), Least(2 * n, |s|));
  }

  lemma TwoRunsPass(s: Nodes, n: nat)
    requires n > 0 && s != []
    ensures var (l, r, rest) := TwoRuns(s, n);
      Pass(s, n) == Merged(l, r) + Pass(rest, n)
  {
    hide Merged;
    TwoRunsAre(s, n);
  }

  method CutTwo(l: ListNode, n: nat, ghost s: Nodes) returns (r: ListNode?, node: ListNode?)
    requires Chain(l, s) && s != [] && n > 0
    modifies s
    ensures var (a, b, rest) := TwoRuns(s, n);
      Chain(l, a) && Chain(r, b) && Chain(node, rest)
  {
    hide Chain, Merged, Distinct;
    ghost var (a, b, rest) := TwoRuns(s, n);
    ChainDistinct(l, s);
    TwoRunsApart(s, n, a, b, rest, Merged(a, b));
    r := Split(l, n, s);
    node := Split(r, n, s[|a|..]);
  }

  // One turn of a pass: the next two runs are merged after tail.
  method MergeTwo(l: ListNode, tail: ListNode, n: nat, ghost d: Nodes, ghost s: Nodes)
    returns (node: ListNode?, last: ListNode)
    requires Chain(l, s) && s != [] && Open(d, tail) && Disjoint(d, s) && n > 0
    modifies s, tail`next
    ensures var (a, b, rest) := TwoRuns(s, n);
      Chain(node, rest) && Open(d + Merged(a, b), last) && last.next == null
  {
    hide Chain, Open, Merged, Distinct, TwoRuns;
    ghost var (a, b, rest) := TwoRuns(s, n);
    ghost var m := Merged(a, b);
    ChainDistinct(l, s);
    TwoRunsApart(s, n, a, b, rest, m);
    OpenEnd(d, tail);
    var r, first;
    r, node := CutTwo(l, n, s);
    first, last := Merge(l, r, a, b);
    Apart(d, s, m);
    AttachAll(d, tail, first, last, m);
  }

  // Merges neighbouring runs of n nodes of the list after dummy.
  method MergePass(dummy: ListNode, n: nat, ghost s: Nodes)
    requires Chain(dummy.next, s) && dummy !in s && s != [] && n > 0
    modifies dummy, s
    ensures Chain(dummy.next, Pass(s, n))
  {
    hide Chain, Open, Pass, Merged, Distinct, TwoRuns, Disjoint;
    var node, tail: ListNode := dummy.next, dummy;
    ghost var done: Nodes, rest: Nodes := [], s;
    OpenOne(dummy);
    OneApart(dummy, s);
    assert [dummy] + done == [dummy];
    while node != null
      invariant Chain(node, rest) && Open([dummy] + done, tail) && Disjoint([dummy] + done, rest)
      invariant Pass(s, n) == done + Pass(rest, n)
      invariant Within(done, s) && Within(rest, s)
      invariant rest == [] ==> tail.next == null
      decreases |rest|
    {
      Empty(node, rest);
      OpenEnd([dummy] + done, tail);
      ChainDistinct(node, rest);
      ghost var (a, b, left) := TwoRuns(rest, n);
      ghost var m := Merged(a, b);
      TwoRunsApart(rest, n, a, b, left, m);
      TwoRunsPass(rest, n);
      node, tail := MergeTwo(node, tail, n, [dummy] + done, rest);
      Apart([dummy] + done, rest, left);
      BothApart([dummy] + done, m, left);
      WithinWithin(m, rest, s);
      WithinWithin(left, rest, s);
      assert [dummy] + done + m == [dummy] + (done + m);
      done, rest := done + m, left;
    }
    Empty(node, rest);
    NoPass(n);
    Ended([dummy] + done, tail);
    Rest(dummy, [dummy] + done);
    assert ([dummy] + done)[1..] == done == Pass(s, n);
  }

  lemma OneApart(x: ListNode, s: Nodes)
    requires x !in s
    ensures Disjoint([x], s) && Within(s, s) && Within([], s)
  {
  }

  lemma NoPass(n: nat)
    requires n > 0
    ensures Pass([], n) == []
  {
  }

  // Doubling the width keeps it an int as long as it stays below the length.
  const MAX_LENGTH: nat := 0x4000_0000

  lemma Shrunk(s: Nodes, k: nat, node: ListNode?)
    requires Chain(node, s) && k < |s|
    ensures k + 1 < |s| ==> s[k].next == s[k + 1]
    ensures k + 1 == |s| ==> s[k].next == null
  {
  }

  lemma BottomUpStep(s: Nodes, n: nat)
    requires n > 0
    ensures BottomUp(s, n) == if n < |s| then BottomUp(Pass(s, n), 2 * n) else s
  {
  }

  lemma PassWithin(s: Nodes, n: nat, t: Nodes)
    requires n > 0 && Within(s, t)
    ensures Within(Pass(s, n), t)
  {
    PassMultiset(s, n);
    var r := Pass(s, n);
    hide Pass;
    forall i | 0 <= i < |r| ensures r[i] in t {
      assert r[i] in multiset(r);
      assert r[i] in s;
    }
  }

  class List {
    var head: ListNode?
    ghost var nodes: Nodes

    ghost predicate Valid()
      reads this, nodes
    {
      Chain(head, nodes)
    }

    // The same nodes, sorted, as the passes of growing width leave them.
    method MergeSortBottomUp()
      requires Valid() && |nodes| <= MAX_LENGTH
      modifies this, nodes
      ensures Valid() && nodes == BottomUp(old(nodes), 1)
      ensures Sorted(nodes) && multiset(nodes) == multiset(old(nodes)) && Turns(nodes, old(nodes))
    {
      SortsAgree(nodes);
      hide Chain, BottomUp, Pass, Merged, Sorted, Turns;
      ghost var s := nodes;
      Empty(head, s);
      BottomUpStep(s, 1);
      if head == null {
        return;
      }
      ChainDistinct(head, s);
      Shrunk(s, 0, head);
      if head.next == null {
        return;
      }
      var len := Length(head, s);
      var dummy := new ListNode(0);
      dummy.next := head;
      var n := 1;
      ghost var cur := s;
      OneApart(dummy, s);
      while n < len
        invariant 0 < n < 2 * len && Chain(dummy.next, cur) && |cur| == |s| && Within(cur, s)
        invariant BottomUp(cur, n) == BottomUp(s, 1)
        invariant n <= 0x7FFF_FFFF
        decreases if n < len then len - n else 0
      {
        BottomUpStep(cur, n);
        PassWithin(cur, n, s);
        MergePass(dummy, n, cur);
        cur := Pass(cur, n);
        n := 2 * n;
      }
      BottomUpStep(cur, n);
      head := dummy.next;
      nodes := cur;
    }

    method MergeSortTopDown()
      requires Valid()
      modifies this, nodes
      ensures Valid() && nodes == TopDown(old(nodes))
      ensures Sorted(nodes) && multiset(nodes) == multiset(old(nodes)) && Turns(nodes, old(nodes))
    {
      SortsAgree(nodes);
      hide Chain, Merged, Sorted, TopDown, Turns;
      ghost var s := nodes;
      head := SortNodes(head, s);
      nodes := TopDown(s);
    }
  }

  method Length(head: ListNode, ghost s: Nodes) returns (len: nat)
    requires Chain(head, s)
    ensures len == |s|
  {
    len := 1;
    var node := head;
    while node.next != null
      invariant 0 < len <= |s| && node == s[len - 1] && (len < |s| ==> node.next == s[len])
      decreases |s| - len
    {
      node := node.next;
      len := len + 1;
    }
  }

  // Sorts a list by halves; slow stops in the middle because fast is twice as quick.
  method SortNodes(node: ListNode?, ghost s: Nodes) returns (sorted: ListNode?)
    requires Chain(node, s)
    modifies s
    ensures Chain(sorted, TopDown(s))
    decreases |s|
  {
    hide Chain, Merged;
    Empty(node, s);
    if node == null {
      return node;
    }
    ChainDistinct(node, s);
    Shrunk(s, 0, node);
    if node.next == null {
      return node;
    }
    var slow := Middle(node, s);
    ghost var mid := (|s| + 1) / 2;
    var rest := Cut(node, slow, s, mid - 1);
    HalvesApart(s, mid);
    var left := SortNodes(node, s[..mid]);
    var right := SortNodes(rest, s[mid..]);
    TopDownKeeps(s[..mid], s[mid..]);
    var last;
    sorted, last := Merge(left, right, TopDown(s[..mid]), TopDown(s[mid..]));
  }

  method Middle(node: ListNode, ghost s: Nodes) returns (slow: ListNode)
    requires Chain(node, s) && |s| >= 2
    ensures slow == s[(|s| + 1) / 2 - 1]
  {
    slow := node;
    var fast := node.next;
    ghost var i := 0;
    Shrunk(s, 0, node);
    hide Chain;
    while fast != null && fast.next != null
      invariant 2 * i + 1 <= |s| && slow == s[i] && fast == if 2 * i + 1 < |s| then s[2 * i + 1] else null
      invariant Chain(node, s)
      decreases |s| - i
    {
      Shrunk(s, i, node);
      Shrunk(s, 2 * i + 1, node);
      Shrunk(s, 2 * i + 2, node);
      slow := slow.next;
      fast := fast.next.next;
      i := i + 1;
    }
    if fast != null {
      Shrunk(s, 2 * i + 1, node);
    }
  }

  lemma HalvesApart(s: Nodes, k: nat)
    requires Distinct(s) && k <= |s|
    ensures Disjoint(s[..k], s[k..]) && Within(s[..k], s) && Within(s[k..], s)
  {
  }

  lemma TopDownKeeps(s: Nodes, t: Nodes)
    requires Disjoint(s, t)
    ensures Disjoint(TopDown(s), TopDown(t)) && Within(TopDown(s), s) && Within(TopDown(t), t)
  {
    TopDownWithin(s);
    TopDownWithin(t);
    var a, b := TopDown(s), TopDown(t);
    forall i, j | 0 <= i < |a| && 0 <= j < |b| ensures a[i] != b[j] {
      assert a[i] in s && b[j] in t;
    }
  }

  lemma TopDownWithin(s: Nodes)
    ensures Within(TopDown(s), s)
  {
    TopDownSorts(s);
    var a := TopDown(s);
    hide TopDown;
    forall i | 0 <= i < |a| ensures a[i] in s {
      assert a[i] in multiset(a);
    }
  }
}
