// leetcode/other/permutations.cc and std/combination.cc: the next and the previous arrangement of
// a sequence in lexicographic order, and all arrangements by repeated steps.
module Lexicographic {

  ghost predicate Same(s: seq<int>, t: seq<int>) {
    multiset(s) == multiset(t)
  }

  ghost predicate LexLess(s: seq<int>, t: seq<int>) {
    |s| == |t| && exists k :: DiffersUp(s, t, k)
  }

  // k is the first place where s and t differ, and s is smaller there.
  ghost predicate DiffersUp(s: seq<int>, t: seq<int>, k: int) {
    && 0 <= k < |s| && k < |t| && s[k] < t[k]
    && forall m :: 0 <= m < k ==> s[m] == t[m]
  }

  ghost predicate Ascending(s: seq<int>) {
    forall i, j :: 0 <= i < j < |s| ==> s[i] <= s[j]
  }

  ghost predicate Descending(s: seq<int>) {
    forall i, j :: 0 <= i < j < |s| ==> s[i] >= s[j]
  }

  // t is the least arrangement of s above s.
  ghost predicate IsNext(s: seq<int>, t: seq<int>) {
    && Same(s, t) && LexLess(s, t)
    && forall u :: Same(s, u) && LexLess(s, u) ==> u == t || LexLess(t, u)
  }

  ghost predicate IsLeast(s: seq<int>) {
    forall u :: Same(s, u) ==> u == s || LexLess(s, u)
  }

  ghost predicate IsGreatest(s: seq<int>) {
    forall u :: Same(s, u) ==> u == s || LexLess(u, s)
  }

  lemma FirstDifference(s: seq<int>, t: seq<int>) returns (k: nat)
    requires |s| == |t| && s != t
    ensures DiffersUp(s, t, k) || DiffersUp(t, s, k)
  {
    k := 0;
    while k < |s| && s[k] == t[k]
      invariant k <= |s| && forall m :: 0 <= m < k ==> s[m] == t[m]
    {
      k := k + 1;
    }
  }

  lemma Trichotomy(s: seq<int>, t: seq<int>)
    requires |s| == |t|
    ensures s == t || LexLess(s, t) || LexLess(t, s)
  {
    if s != t {
      var k := FirstDifference(s, t);
    }
  }

  lemma Asymmetry(s: seq<int>, t: seq<int>)
    requires LexLess(s, t)
    ensures s != t && !LexLess(t, s)
  {
    var k :| DiffersUp(s, t, k);
    forall m ensures !DiffersUp(t, s, m) {
    }
  }

  lemma Transitivity(s: seq<int>, t: seq<int>, u: seq<int>)
    requires LexLess(s, t) && LexLess(t, u)
    ensures LexLess(s, u)
  {
    var k :| DiffersUp(s, t, k);
    var m :| DiffersUp(t, u, m);
    assert DiffersUp(s, u, if k < m then k else m);
  }

  // After a common prefix, the rests are arrangements of each other too.
  lemma SameRests(s: seq<int>, t: seq<int>, k: nat)
    requires Same(s, t) && k <= |s| && k <= |t| && forall m :: 0 <= m < k ==> s[m] == t[m]
    ensures Same(s[k..], t[k..]) && |s| == |t|
  {
    assert s[..k] == t[..k];
    assert s == s[..k] + s[k..] && t == t[..k] + t[k..];
    assert multiset(s) == multiset(s[..k]) + multiset(s[k..]) && multiset(t) == multiset(t[..k]) + multiset(t[k..]);
    assert multiset(s[k..]) == multiset(s) - multiset(s[..k]);
    assert multiset(t[k..]) == multiset(t) - multiset(t[..k]);
    assert |multiset(s)| == |s| && |multiset(t)| == |t|;
  }

  // What stands at place k of an arrangement that agrees with s before k stands in s from k on.
  lemma FromRest(s: seq<int>, u: seq<int>, k: nat) returns (m: nat)
    requires Same(s, u) && k < |s| && k < |u| && forall m :: 0 <= m < k ==> s[m] == u[m]
    ensures k <= m < |s| && s[m] == u[k]
  {
    SameRests(s, u, k);
    assert u[k] == u[k..][0] && u[k] in multiset(s[k..]);
    var j :| 0 <= j < |s[k..]| && s[k..][j] == u[k];
    m := k + j;
  }

  lemma AscendingIsLeast(s: seq<int>)
    requires Ascending(s)
    ensures IsLeast(s)
  {
    forall u | Same(s, u) && u != s ensures LexLess(s, u) {
      SameRests(s, u, 0);
      var k := FirstDifference(s, u);
      var m := FromRest(s, u, k);
    }
  }

  lemma DescendingIsGreatest(s: seq<int>)
    requires Descending(s)
    ensures IsGreatest(s)
  {
    forall u | Same(s, u) && u != s ensures LexLess(u, s) {
      SameRests(s, u, 0);
      var k := FirstDifference(s, u);
      var m := FromRest(s, u, k);
    }
  }

  // How a step up looks: from i on, s falls after one rise; s[j] is the last element above s[i];
  // t has s[j] in place i and the rest of the tail in ascending order.
  ghost predicate StepUp(s: seq<int>, t: seq<int>, i: nat, j: nat) {
    && i < j < |s| == |t| && Same(s, t)
    && (forall m :: 0 <= m < i ==> s[m] == t[m])
    && (forall k, m :: i < k < m < |s| ==> s[k] >= s[m])
    && s[i] < s[j] == t[i] && (forall m :: j < m < |s| ==> s[m] <= s[i])
    && (forall k, m :: i < k < m < |t| ==> t[k] <= t[m])
  }

  lemma StepUpIsNext(s: seq<int>, t: seq<int>, i: nat, j: nat)
    requires StepUp(s, t, i, j)
    ensures IsNext(s, t)
  {
    assert DiffersUp(s, t, i);
    forall u | Same(s, u) && LexLess(s, u) && u != t ensures LexLess(t, u) {
      SameRests(s, u, 0);
      var k := FirstDifference(t, u);
      if DiffersUp(u, t, k) {
        NothingBetween(s, t, u, i, j, k);
      }
    }
  }

  // An arrangement below t is not above s: before place i it would be below s too; at i it would
  // hold less than the least element above s[i]; after i, t has the least tail there is.
  lemma NothingBetween(s: seq<int>, t: seq<int>, u: seq<int>, i: nat, j: nat, k: nat)
    requires StepUp(s, t, i, j) && Same(s, u) && |u| == |s| && DiffersUp(u, t, k)
    ensures !LexLess(s, u)
  {
    if k > i {
      var m := FromRest(t, u, k);
    } else if k == i {
      var m := FromRest(s, u, i);
      assert u[i] <= s[i];
      if u[i] == s[i] {
        forall d | DiffersUp(s, u, d) ensures false {
          var m := FromRest(s, u, d);
        }
      }
    }
  }
}

module Permutations {
  import opened Collections
  import opened Lexicographic

  // std::reverse on a range
  method ReverseRange(a: array<int>, lo: nat, hi: nat)
    requires lo <= hi <= a.Length
    modifies a
    ensures forall k :: lo <= k < hi ==> a[k] == old(a[lo + hi - 1 - k])
    ensures forall k :: 0 <= k < lo || hi <= k < a.Length ==> a[k] == old(a[k])
    ensures Same(a[..], old(a[..]))
  {
    var i, j := lo, hi;
    while i + 1 < j
      invariant lo <= i <= j <= hi && i + j == lo + hi
      invariant forall k :: lo <= k < i || j <= k < hi ==> a[k] == old(a[lo + hi - 1 - k])
      invariant forall k :: i <= k < j ==> a[k] == old(a[k])
      invariant forall k :: 0 <= k < lo || hi <= k < a.Length ==> a[k] == old(a[k])
      invariant Same(a[..], old(a[..]))
    {
      j := j - 1;
      Swap(a, i, j);
      i := i + 1;
    }
  }

  // std::iter_swap
  method Swap(a: array<int>, i: nat, j: nat)
    requires i < a.Length && j < a.Length
    modifies a
    ensures a[..] == old(a[..])[i := old(a[j])][j := old(a[i])] && Same(a[..], old(a[..]))
  {
    SwapIsSame(a[..], i, j);
    a[i], a[j] := a[j], a[i];
    assert a[..] == old(a[..])[i := old(a[j])][j := old(a[i])];
  }

  lemma SwapIsSame(s: seq<int>, i: nat, j: nat)
    requires i < |s| && j < |s|
    ensures Same(s[i := s[j]][j := s[i]], s)
  {
    assert multiset(s[i := s[j]]) == multiset(s) - multiset{s[i]} + multiset{s[j]};
    assert multiset(s[i := s[j]][j := s[i]]) == multiset(s[i := s[j]]) - multiset{s[i := s[j]][j]} + multiset{s[i]};
  }

  // Steps to the next arrangement, or from the greatest around to the least.
  method NextPermutation(a: array<int>) returns (stepped: bool)
    modifies a
    ensures stepped ==> IsNext(old(a[..]), a[..])
    ensures !stepped ==> IsGreatest(old(a[..])) && IsLeast(a[..]) && Same(old(a[..]), a[..])
  {
    hide IsNext, IsGreatest, IsLeast;
    if a.Length <= 1 {
      EmptyOrSingle(a[..]);
      return false;
    }
    var i := a.Length - 1;
    while true
      invariant 0 < i < a.Length && a[..] == old(a[..])
      invariant forall k, m :: i <= k < m < a.Length ==> a[k] >= a[m]
      decreases i
    {
      var i1 := i;
      i := i - 1;
      if a[i] < a[i1] {
        RaiseAt(a, i);
        return true;
      }
      if i == 0 {
        ReverseRange(a, 0, a.Length);
        WrapsAround(old(a[..]), a[..]);
        return false;
      }
    }
  }

  // The step itself, at the place i before a falling tail: the last element above a[i] takes its
  // place, and the tail is turned around.
  method RaiseAt(a: array<int>, i: nat)
    requires i + 1 < a.Length && a[i] < a[i + 1]
    requires forall k, m :: i < k < m < a.Length ==> a[k] >= a[m]
    modifies a
    ensures IsNext(old(a[..]), a[..])
  {
    hide IsNext, Same;
    ghost var s := a[..];
    var i2 := LastAbove(a, i);
    SwapAndTurn(a, i, i2);
    TailRises(s, i, i2, a[..]);
  }

  // The two writes both directions share: swap places i and j, and turn the tail after i around.
  method SwapAndTurn(a: array<int>, i: nat, j: nat)
    requires i < j < a.Length
    modifies a
    ensures Turned(old(a[..]), i, j, a[..])
  {
    Swap(a, i, j);
    ReverseRange(a, i + 1, a.Length);
  }

  ghost predicate Turned(s: seq<int>, i: nat, j: nat, t: seq<int>)
    requires i < j < |s|
  {
    && |t| == |s| && Same(t, s)
    && (forall k :: 0 <= k < i ==> t[k] == s[k]) && t[i] == s[j]
    && forall k :: i < k < |s| ==> t[k] == s[i := s[j]][j := s[i]][i + |s| - k]
  }

  method LastAbove(a: array<int>, i: nat) returns (i2: nat)
    requires i + 1 < a.Length && a[i] < a[i + 1]
    ensures i < i2 < a.Length && a[i] < a[i2] && forall m :: i2 < m < a.Length ==> a[m] <= a[i]
  {
    i2 := a.Length - 1;
    while !(a[i] < a[i2])
      invariant i < i2 < a.Length && forall m :: i2 < m < a.Length ==> a[m] <= a[i]
      decreases i2
    {
      i2 := i2 - 1;
    }
  }

  lemma EmptyOrSingle(s: seq<int>)
    requires |s| <= 1
    ensures IsGreatest(s) && IsLeast(s)
  {
    AscendingIsLeast(s);
    DescendingIsGreatest(s);
  }

  // Swapping and reversing the tail makes a step up.
  lemma TailRises(s: seq<int>, i: nat, j: nat, t: seq<int>)
    requires i < j < |s| && s[i] < s[i + 1] && Turned(s, i, j, t)
    requires forall k, m :: i < k < m < |s| ==> s[k] >= s[m]
    requires s[i] < s[j] && forall m :: j < m < |s| ==> s[m] <= s[i]
    ensures IsNext(s, t)
  {
    assert StepUp(s, t, i, j);
    StepUpIsNext(s, t, i, j);
  }

  lemma WrapsAround(s: seq<int>, t: seq<int>)
    requires |s| == |t| && Descending(s) && Same(t, s)
    requires forall k :: 0 <= k < |s| ==> t[k] == s[|s| - 1 - k]
    ensures IsGreatest(s) && IsLeast(t)
  {
    DescendingIsGreatest(s);
    AscendingIsLeast(t);
  }

  // ---------------------------------------------------------------------------------------
  // The step back, by looking at the sequence upside down

  function Negated(s: seq<int>): (t: seq<int>)
    ensures |t| == |s| && forall k :: 0 <= k < |s| ==> t[k] == -s[k]
  {
    seq(|s|, k requires 0 <= k < |s| => -s[k])
  }

  lemma NegatedTwice(s: seq<int>)
    ensures Negated(Negated(s)) == s
  {
  }

  lemma {:induction false} NegatedSame(s: seq<int>, t: seq<int>)
    requires Same(s, t)
    ensures Same(Negated(s), Negated(t))
  {
    forall x ensures multiset(Negated(s))[x] == multiset(Negated(t))[x] {
      NegatedCount(s, x);
      NegatedCount(t, x);
    }
  }

  lemma {:induction false} NegatedCount(s: seq<int>, x: int)
    ensures multiset(Negated(s))[x] == multiset(s)[-x]
  {
    if s != [] {
      var n := |s| - 1;
      NegatedCount(s[..n], x);
      assert s == s[..n] + [s[n]] && Negated(s) == Negated(s[..n]) + [-s[n]];
    }
  }

  lemma NegatedLess(s: seq<int>, t: seq<int>)
    ensures LexLess(s, t) <==> LexLess(Negated(t), Negated(s))
  {
    if LexLess(s, t) {
      var k :| DiffersUp(s, t, k);
      assert DiffersUp(Negated(t), Negated(s), k);
    }
    if LexLess(Negated(t), Negated(s)) {
      var k :| DiffersUp(Negated(t), Negated(s), k);
      assert DiffersUp(s, t, k);
    }
  }

  // t steps up to s exactly when, upside down, s steps up to t.
  lemma NegatedNext(s: seq<int>, t: seq<int>)
    requires IsNext(Negated(s), Negated(t))
    ensures IsNext(t, s)
  {
    NegatedSame(Negated(s), Negated(t));
    NegatedTwice(s);
    NegatedTwice(t);
    NegatedLess(t, s);
    forall u | Same(t, u) && LexLess(t, u) ensures u == s || LexLess(s, u) {
      SameRests(t, u, 0);
      SameRests(s, t, 0);
      Trichotomy(s, u);
      if LexLess(u, s) {
        NegatedSame(s, u);
        NegatedLess(u, s);
        NegatedLess(t, u);
        Asymmetry(Negated(u), Negated(t));
        NegatedTwice(u);
        assert false;
      }
    }
  }

  // Steps to the previous arrangement, or from the least around to the greatest.
  method PrevPermutation(a: array<int>) returns (stepped: bool)
    modifies a
    ensures stepped ==> IsNext(a[..], old(a[..]))
    ensures !stepped ==> IsLeast(old(a[..])) && IsGreatest(a[..]) && Same(old(a[..]), a[..])
  {
    hide IsNext, IsGreatest, IsLeast;
    if a.Length <= 1 {
      EmptyOrSingle(a[..]);
      return false;
    }
    var i := a.Length - 1;
    while true
      invariant 0 < i < a.Length && a[..] == old(a[..])
      invariant forall k, m :: i <= k < m < a.Length ==> a[k] <= a[m]
      decreases i
    {
      var i1 := i;
      i := i - 1;
      if a[i1] < a[i] {
        LowerAt(a, i);
        return true;
      }
      if i == 0 {
        ReverseRange(a, 0, a.Length);
        WrapsBack(old(a[..]), a[..]);
        return false;
      }
    }
  }

  lemma WrapsBack(s: seq<int>, t: seq<int>)
    requires |s| == |t| && Ascending(s) && Same(t, s)
    requires forall k :: 0 <= k < |s| ==> t[k] == s[|s| - 1 - k]
    ensures IsLeast(s) && IsGreatest(t)
  {
    AscendingIsLeast(s);
    DescendingIsGreatest(t);
  }

  method LowerAt(a: array<int>, i: nat)
    requires i + 1 < a.Length && a[i + 1] < a[i]
    requires forall k, m :: i < k < m < a.Length ==> a[k] <= a[m]
    modifies a
    ensures IsNext(a[..], old(a[..]))
  {
    hide IsNext, Same;
    ghost var s := a[..];
    var i2 := LastBelow(a, i);
    SwapAndTurn(a, i, i2);
    TailFalls(s, i, i2, a[..]);
  }

  lemma TailFalls(s: seq<int>, i: nat, j: nat, t: seq<int>)
    requires i < j < |s| && s[i + 1] < s[i] && Turned(s, i, j, t)
    requires forall k, m :: i < k < m < |s| ==> s[k] <= s[m]
    requires s[j] < s[i] && forall m :: j < m < |s| ==> s[m] >= s[i]
    ensures IsNext(t, s)
  {
    hide IsNext, Same;
    NegatedSame(t, s);
    TailRises(Negated(s), i, j, Negated(t));
    NegatedNext(s, t);
  }

  method LastBelow(a: array<int>, i: nat) returns (i2: nat)
    requires i + 1 < a.Length && a[i + 1] < a[i]
    ensures i < i2 < a.Length && a[i2] < a[i] && forall m :: i2 < m < a.Length ==> a[m] >= a[i]
  {
    i2 := a.Length - 1;
    while !(a[i2] < a[i])
      invariant i < i2 < a.Length && forall m :: i2 < m < a.Length ==> a[m] >= a[i]
      decreases i2
    {
      i2 := i2 - 1;
    }
  }

  lemma NextIsUnique(s: seq<int>, t: seq<int>, u: seq<int>)
    requires Same(s, u) || Same(t, u)
    ensures IsNext(s, t) && IsNext(s, u) ==> t == u
    ensures IsNext(s, u) && IsNext(t, u) ==> s == t
    ensures IsLeast(t) && IsLeast(u) && Same(t, u) ==> t == u
    ensures IsGreatest(t) && IsGreatest(u) && Same(t, u) ==> t == u
  {
    if LexLess(t, u) { Asymmetry(t, u); }
    if IsNext(s, u) && IsNext(t, u) {
      SameRests(s, u, 0);
      SameRests(t, u, 0);
      Trichotomy(s, t);
      if LexLess(s, t) { Asymmetry(t, u); }
      if LexLess(t, s) { Asymmetry(s, u); }
    }
  }

  // One step and the step back leave every sequence as it was, around the ends too.
  method NextThenPrev(a: array<int>) returns (stepped: bool, back: bool)
    modifies a
    ensures a[..] == old(a[..])
  {
    hide IsNext, IsGreatest, IsLeast;
    ghost var s := a[..];
    stepped := NextPermutation(a);
    ghost var t := a[..];
    back := PrevPermutation(a);
    StepAndBack(s, t, a[..], stepped, back);
  }

  lemma StepAndBack(s: seq<int>, t: seq<int>, u: seq<int>, stepped: bool, back: bool)
    requires stepped ==> IsNext(s, t)
    requires !stepped ==> IsGreatest(s) && IsLeast(t) && Same(s, t)
    requires back ==> IsNext(u, t)
    requires !back ==> IsLeast(t) && IsGreatest(u) && Same(t, u)
    ensures u == s && stepped == back
  {
    if stepped && back {
      NextIsUnique(s, u, t);
    } else if stepped {
      Asymmetry(s, t);
    } else if back {
      Asymmetry(u, t);
    } else {
      NextIsUnique(t, s, u);
    }
  }

  // ---------------------------------------------------------------------------------------
  // All arrangements

  ghost function Arrangements(m: multiset<int>): set<seq<int>>
    decreases |m|
  {
    if |m| == 0 then {[]}
    else set x, r | x in m && r in Arrangements(m - multiset{x}) :: [x] + r
  }

  lemma {:induction false} InArrangements(s: seq<int>)
    ensures s in Arrangements(multiset(s))
  {
    if s != [] {
      var x, r := s[0], s[1..];
      InArrangements(r);
      assert s == [x] + r;
      OneMore(multiset(r), x, r);
    }
  }

  lemma OneMore(m: multiset<int>, x: int, r: seq<int>)
    requires r in Arrangements(m)
    ensures [x] + r in Arrangements(multiset{x} + m)
  {
    var more := multiset{x} + m;
    assert more - multiset{x} == m && x in more;
    assert r in Arrangements(more - multiset{x});
  }

  // The arrangements still to come.
  ghost function Above(s: seq<int>): set<seq<int>> {
    set u | u in Arrangements(multiset(s)) && LexLess(s, u)
  }

  lemma FewerAbove(s: seq<int>, t: seq<int>)
    requires IsNext(s, t)
    ensures |Above(t)| < |Above(s)|
  {
    hide Arrangements;
    InArrangements(t);
    var a, b := Above(t), Above(s);
    assert t in b;
    forall u | u in a ensures u in b && u != t {
      Transitivity(s, t, u);
      Asymmetry(t, u);
    }
    assert a <= b - {t};
    SubsetSize(a, b - {t});
  }

  // res lists in strictly rising order exactly the arrangements below s.
  ghost predicate ListsBelow(res: seq<seq<int>>, s: seq<int>) {
    && (forall j, k :: 0 <= j < k < |res| ==> LexLess(res[j], res[k]))
    && forall u :: u in res <==> Same(s, u) && LexLess(u, s)
  }

  // res lists in strictly rising order exactly the arrangements of s.
  ghost predicate ListsAll(res: seq<seq<int>>, s: seq<int>) {
    && (forall j, k :: 0 <= j < k < |res| ==> LexLess(res[j], res[k]))
    && forall u :: u in res <==> Same(s, u)
  }

  lemma NothingBelowLeast(s: seq<int>)
    requires Ascending(s)
    ensures ListsBelow([], s)
  {
    AscendingIsLeast(s);
    forall u | Same(s, u) && LexLess(u, s) ensures false {
      Asymmetry(u, s);
    }
  }

  lemma ListOne(res: seq<seq<int>>, s: seq<int>, t: seq<int>)
    requires ListsBelow(res, s) && IsNext(s, t)
    ensures ListsBelow(res + [s], t)
  {
    var res' := res + [s];
    forall j, k | 0 <= j < k < |res'| ensures LexLess(res'[j], res'[k]) {
      assert res'[j] in res;
    }
    forall u ensures u in res' <==> Same(t, u) && LexLess(u, t) {
      if u in res {
        Transitivity(u, s, t);
      } else if Same(t, u) && LexLess(u, t) {
        SameRests(s, u, 0);
        Trichotomy(s, u);
        Asymmetry(u, t);
      }
    }
  }

  lemma ListLast(res: seq<seq<int>>, s: seq<int>)
    requires ListsBelow(res, s) && IsGreatest(s)
    ensures ListsAll(res + [s], s)
  {
    var res' := res + [s];
    forall j, k | 0 <= j < k < |res'| ensures LexLess(res'[j], res'[k]) {
      assert res'[j] in res;
    }
  }

  lemma ListsAllOf(res: seq<seq<int>>, s: seq<int>, t: seq<int>)
    requires ListsAll(res, s) && Same(s, t)
    ensures ListsAll(res, t)
  {
  }

  // Every distinct arrangement once, in lexicographic order.
  method Permute(nums: array<int>) returns (res: seq<seq<int>>)
    modifies nums
    ensures ListsAll(res, old(nums[..]))
  {
    hide IsNext, IsGreatest, IsLeast, ListsAll, ListsBelow, Above;
    Sort(nums);
    res := [];
    NothingBelowLeast(nums[..]);
    while true
      invariant Same(nums[..], old(nums[..])) && ListsBelow(res, nums[..])
      decreases |Above(nums[..])|
    {
      ghost var s := nums[..];
      res := res + [nums[..]];
      var stepped := NextPermutation(nums);
      if !stepped {
        ListLast(res[..|res| - 1], s);
        assert res[..|res| - 1] + [s] == res;
        ListsAllOf(res, s, old(nums[..]));
        return;
      }
      ListOne(res[..|res| - 1], s, nums[..]);
      assert res[..|res| - 1] + [s] == res;
      FewerAbove(s, nums[..]);
      NextIsSame(s, nums[..]);
    }
  }

  lemma NextIsSame(s: seq<int>, t: seq<int>)
    requires IsNext(s, t)
    ensures Same(s, t)
  {
  }

  // std::sort: any method that leaves the ascending arrangement.
  method Sort(a: array<int>)
    modifies a
    ensures Ascending(a[..]) && Same(a[..], old(a[..]))
  {
    for i := 0 to a.Length
      invariant Same(a[..], old(a[..]))
      invariant forall j, k :: 0 <= j < i && j < k < a.Length ==> a[j] <= a[k]
    {
      var least := i;
      for j := i to a.Length
        invariant i <= least < a.Length && forall k :: i <= k < j ==> a[least] <= a[k]
      {
        if a[j] < a[least] { least := j; }
      }
      Swap(a, i, least);
    }
  }
}
