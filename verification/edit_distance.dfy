// leetcode/DP/minStringDistance.cc: the least number of single-character edits between two words.
module EditDistance {

  // ---------------------------------------------------------------------------------------
  // Edits at any position, in any order

  datatype Edit = Insert(pos: nat, c: char) | Delete(pos: nat) | Replace(pos: nat, c: char)

  predicate Fits(e: Edit, s: string) {
    if e.Insert? then e.pos <= |s| else e.pos < |s|
  }

  function Apply(e: Edit, s: string): string
    requires Fits(e, s)
  {
    match e
    case Insert(p, c) => s[..p] + [c] + s[p..]
    case Delete(p) => s[..p] + s[p + 1..]
    case Replace(p, c) => s[..p] + [c] + s[p + 1..]
  }

  ghost predicate Leads(script: seq<Edit>, s: string, t: string) {
    if script == [] then s == t
    else Fits(script[0], s) && Leads(script[1..], Apply(script[0], s), t)
  }

  ghost predicate IsDistance(d: nat, s: string, t: string) {
    && (exists script :: |script| == d && Leads(script, s, t))
    && forall script :: Leads(script, s, t) ==> d <= |script|
  }

  // ---------------------------------------------------------------------------------------
  // The recurrence over prefixes

  function Init(s: string): string
    requires s != ""
  {
    s[..|s| - 1]
  }

  function Last(s: string): char
    requires s != ""
  {
    s[|s| - 1]
  }

  function Min(x: nat, y: nat): nat {
    if y < x then y else x
  }

  function Distance(s: string, t: string): nat
    decreases |s| + |t|
  {
    if s == "" then |t|
    else if t == "" then |s|
    else if Last(s) == Last(t) then Distance(Init(s), Init(t))
    else 1 + Min(Distance(Init(s), Init(t)), Min(Distance(Init(s), t), Distance(s, Init(t))))
  }

  // One character more or less at the end changes the distance by at most one.
  lemma {:induction false} Neighbours(s: string, t: string)
    ensures s != "" ==> Distance(s, t) <= Distance(Init(s), t) + 1 && Distance(Init(s), t) <= Distance(s, t) + 1
    ensures t != "" ==> Distance(s, t) <= Distance(s, Init(t)) + 1 && Distance(s, Init(t)) <= Distance(s, t) + 1
    decreases |s| + |t|
  {
    if s != "" && t != "" {
      Neighbours(Init(s), t);
      Neighbours(s, Init(t));
      Neighbours(Init(s), Init(t));
    } else if s != "" {
      Neighbours(Init(s), t);
    } else if t != "" {
      Neighbours(s, Init(t));
    }
  }

  // Every case of the recurrence is a bound, equal last characters or not.
  lemma Bounds(s: string, t: string)
    requires s != "" && t != ""
    ensures Distance(s, t) <= Distance(Init(s), Init(t)) + 1
    ensures Distance(s, t) <= Distance(Init(s), t) + 1
    ensures Distance(s, t) <= Distance(s, Init(t)) + 1
  {
    Neighbours(s, t);
  }

  // ---------------------------------------------------------------------------------------
  // No script is shorter

  lemma {:induction false} OneEdit(e: Edit, s: string, t: string)
    requires Fits(e, s)
    ensures Distance(s, t) <= 1 + Distance(Apply(e, s), t)
    decreases |s| + |t|
  {
    var r := Apply(e, s);
    if e.Insert? && e.pos == |s| {
      assert r == s + [e.c] && Init(r) == s;
      Neighbours(r, t);
    } else if e.Delete? && e.pos == |s| - 1 {
      assert r == Init(s);
      Neighbours(s, t);
    } else if e.Replace? && e.pos == |s| - 1 {
      assert r == Init(s) + [e.c] && Init(r) == Init(s);
      if t != "" {
        OneEdit(e, s, Init(t));
        Bounds(s, t);
      }
    } else {
      InInit(e, s);
      if t != "" {
        OneEdit(e, Init(s), Init(t));
        OneEdit(e, Init(s), t);
        OneEdit(e, s, Init(t));
        Bounds(s, t);
      }
    }
  }

  // An edit before the last character leaves it last.
  lemma InInit(e: Edit, s: string)
    requires Fits(e, s) && e.pos < |s| && (!e.Insert? ==> e.pos < |s| - 1)
    ensures Fits(e, Init(s)) && Apply(e, s) == Apply(e, Init(s)) + [Last(s)]
    ensures Apply(e, s) != "" && Init(Apply(e, s)) == Apply(e, Init(s)) && Last(Apply(e, s)) == Last(s)
  {
  }

  lemma {:induction false} NoShorter(script: seq<Edit>, s: string, t: string)
    requires Leads(script, s, t)
    ensures Distance(s, t) <= |script|
  {
    if script == [] {
      DistanceToSelf(s);
    } else {
      NoShorter(script[1..], Apply(script[0], s), t);
      OneEdit(script[0], s, t);
    }
  }

  lemma {:induction false} DistanceToSelf(s: string)
    ensures Distance(s, s) == 0
  {
    if s != "" {
      DistanceToSelf(Init(s));
    }
  }

  // ---------------------------------------------------------------------------------------
  // A script of that length exists

  lemma Prepend(e: Edit, rest: seq<Edit>, s: string, t: string)
    requires Fits(e, s) && Leads(rest, Apply(e, s), t)
    ensures Leads([e] + rest, s, t)
  {
    assert ([e] + rest)[1..] == rest;
  }

  lemma EditBeforeTail(e: Edit, s: string, tail: string)
    requires Fits(e, s)
    ensures Fits(e, s + tail) && Apply(e, s + tail) == Apply(e, s) + tail
  {
    var p := e.pos;
    assert (s + tail)[..p] == s[..p];
    if e.Insert? {
      assert (s + tail)[p..] == s[p..] + tail;
    } else {
      assert (s + tail)[p + 1..] == s[p + 1..] + tail;
    }
  }

  // A script for two words also takes one to the other with the same characters after both.
  lemma {:induction false} WithTail(script: seq<Edit>, s: string, t: string, tail: string)
    requires Leads(script, s, t)
    ensures Leads(script, s + tail, t + tail)
  {
    if script != [] {
      var e := script[0];
      hide Apply;
      EditBeforeTail(e, s, tail);
      WithTail(script[1..], Apply(e, s), t, tail);
    }
  }

  // The three ways a script grows at the front, and the one case where it does not.
  lemma InsertFirst(rest: seq<Edit>, s: string, t: string)
    requires t != "" && Leads(rest, s, Init(t))
    ensures Leads([Insert(|s|, Last(t))] + rest, s, t)
  {
    assert t == Init(t) + [Last(t)];
    WithTail(rest, s, Init(t), [Last(t)]);
    assert Apply(Insert(|s|, Last(t)), s) == s + [Last(t)];
    Prepend(Insert(|s|, Last(t)), rest, s, t);
  }

  lemma DeleteFirst(rest: seq<Edit>, s: string, t: string)
    requires s != "" && Leads(rest, Init(s), t)
    ensures Leads([Delete(|s| - 1)] + rest, s, t)
  {
    assert Apply(Delete(|s| - 1), s) == Init(s);
    Prepend(Delete(|s| - 1), rest, s, t);
  }

  lemma ReplaceFirst(rest: seq<Edit>, s: string, t: string)
    requires s != "" && t != "" && Leads(rest, Init(s), Init(t))
    ensures Leads([Replace(|s| - 1, Last(t))] + rest, s, t)
    ensures Last(s) == Last(t) ==> Leads(rest, s, t)
  {
    assert t == Init(t) + [Last(t)] && s == Init(s) + [Last(s)];
    WithTail(rest, Init(s), Init(t), [Last(t)]);
    assert Apply(Replace(|s| - 1, Last(t)), s) == Init(s) + [Last(t)];
    Prepend(Replace(|s| - 1, Last(t)), rest, s, t);
  }

  lemma {:induction false} Script(s: string, t: string) returns (script: seq<Edit>)
    ensures |script| == Distance(s, t) && Leads(script, s, t)
    decreases |s| + |t|
  {
    if s == "" && t == "" {
      script := [];
    } else {
      hide Leads;
      if s == "" || (t != "" && Last(s) != Last(t) && Distance(s, t) == 1 + Distance(s, Init(t))) {
        script := Script(s, Init(t));
        InsertFirst(script, s, t);
        script := [Insert(|s|, Last(t))] + script;
      } else if t == "" || (Last(s) != Last(t) && Distance(s, t) == 1 + Distance(Init(s), t)) {
        script := Script(Init(s), t);
        DeleteFirst(script, s, t);
        script := [Delete(|s| - 1)] + script;
      } else {
        script := Script(Init(s), Init(t));
        ReplaceFirst(script, s, t);
        if Last(s) != Last(t) {
          script := [Replace(|s| - 1, Last(t))] + script;
        }
      }
    }
  }

  lemma DistanceIsLeast(s: string, t: string)
    ensures IsDistance(Distance(s, t), s, t)
  {
    var script := Script(s, t);
    forall other | Leads(other, s, t) ensures Distance(s, t) <= |other| {
      NoShorter(other, s, t);
    }
  }

  // ---------------------------------------------------------------------------------------
  // The table

  method MinDistance(word1: string, word2: string) returns (d: nat)
    ensures IsDistance(d, word1, word2)
  {
    hide IsDistance, Distance;
    var m, n := |word1|, |word2|;
    var dp := new nat[m + 1, n + 1]((i, j) => 0);
    for i := 0 to m + 1
      invariant forall k :: 0 <= k < i ==> dp[k, 0] == k
    {
      dp[i, 0] := i;
    }
    for j := 0 to n + 1
      invariant forall k :: 0 <= k <= m ==> dp[k, 0] == k
      invariant forall k :: 0 <= k < j ==> dp[0, k] == k
    {
      dp[0, j] := j;
    }
    Edges(word1, word2);
    for i := 1 to m + 1
      invariant forall k, l :: 0 <= k <= m && 0 <= l <= n && (k < i || l == 0) ==> dp[k, l] == Distance(word1[..k], word2[..l])
    {
      for j := 1 to n + 1
        invariant forall k, l :: 0 <= k <= m && 0 <= l <= n && (k < i || l == 0 || (k == i && l < j)) ==>
                    dp[k, l] == Distance(word1[..k], word2[..l])
      {
        Cell(word1, word2, i, j);
        if word1[i - 1] == word2[j - 1] {
          dp[i, j] := dp[i - 1, j - 1];
        } else {
          dp[i, j] := Min(dp[i - 1, j - 1], Min(dp[i - 1, j], dp[i, j - 1])) + 1;
        }
      }
    }
    assert word1[..m] == word1 && word2[..n] == word2;
    DistanceIsLeast(word1, word2);
    d := dp[m, n];
  }

  lemma Edges(s: string, t: string)
    ensures forall k :: 0 <= k <= |s| ==> Distance(s[..k], t[..0]) == k
    ensures forall k :: 0 <= k <= |t| ==> Distance(s[..0], t[..k]) == k
  {
  }

  // The recurrence read in terms of the table's cells.
  lemma Cell(s: string, t: string, i: nat, j: nat)
    requires 1 <= i <= |s| && 1 <= j <= |t|
    ensures Distance(s[..i], t[..j]) ==
            if s[i - 1] == t[j - 1] then Distance(s[..i - 1], t[..j - 1])
            else 1 + Min(Distance(s[..i - 1], t[..j - 1]), Min(Distance(s[..i - 1], t[..j]), Distance(s[..i], t[..j - 1])))
  {
    assert Init(s[..i]) == s[..i - 1] && Init(t[..j]) == t[..j - 1];
  }
}
