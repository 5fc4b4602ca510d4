// leetcode/DP/regularExpressionMatch.cc: matching a whole string against a pattern of characters,
// '.' and '*', by recursion from the left and by a table from the right.
module RegularExpressions {

  // ---------------------------------------------------------------------------------------
  // The language of a pattern

  // One character, or any number of characters.
  datatype Token = One(c: char) | Star(c: char)

  predicate Fits(c: char, x: char) {
    x == c || c == '.'
  }

  ghost predicate Piece(t: Token, w: string) {
    match t
    case One(c) => |w| == 1 && Fits(c, w[0])
    case Star(c) => forall k :: 0 <= k < |w| ==> Fits(c, w[k])
  }

  // s is cut into one piece for each token.
  ghost predicate InLanguage(s: string, ts: seq<Token>) {
    if ts == [] then s == ""
    else exists k :: 0 <= k <= |s| && Piece(ts[0], s[..k]) && InLanguage(s[k..], ts[1..])
  }

  ghost predicate CutAt(s: string, ts: seq<Token>, k: int)
    requires ts != []
  {
    0 <= k <= |s| && Piece(ts[0], s[..k]) && InLanguage(s[k..], ts[1..])
  }

  lemma Cut(s: string, ts: seq<Token>) returns (k: nat)
    requires ts != [] && InLanguage(s, ts)
    ensures CutAt(s, ts, k)
  {
    k :| 0 <= k <= |s| && Piece(ts[0], s[..k]) && InLanguage(s[k..], ts[1..]);
  }

  function Tokens(p: string): seq<Token> {
    if p == "" then []
    else if |p| > 1 && p[1] == '*' then [Star(p[0])] + Tokens(p[2..])
    else [One(p[0])] + Tokens(p[1..])
  }

  // Each '*' follows a character other than '*'.
  predicate WellFormed(p: string) {
    forall k :: 0 <= k < |p| && p[k] == '*' ==> k > 0 && p[k - 1] != '*'
  }

  // ---------------------------------------------------------------------------------------
  // From the left

  // The original reads p[1] of a one-character pattern too, and finds the terminating zero there.
  function IsMatchRecursive(s: string, p: string): bool
    decreases |p|, |s|
  {
    if p == "" then s == ""
    else if |p| > 1 && p[1] == '*' then
      || IsMatchRecursive(s, p[2..])
      || (s != "" && Fits(p[0], s[0]) && IsMatchRecursive(s[1..], p))
    else
      s != "" && Fits(p[0], s[0]) && IsMatchRecursive(s[1..], p[1..])
  }

  lemma {:induction false} RecursiveDecides(s: string, p: string)
    ensures IsMatchRecursive(s, p) <==> InLanguage(s, Tokens(p))
    decreases |p|, |s|
  {
    if p == "" {
    } else if |p| > 1 && p[1] == '*' {
      var ts := Tokens(p[2..]);
      assert Tokens(p)[1..] == ts;
      RecursiveDecides(s, p[2..]);
      StarFirst(s, p[0], ts);
      if s != "" {
        RecursiveDecides(s[1..], p);
      }
    } else {
      var ts := Tokens(p[1..]);
      assert Tokens(p)[1..] == ts;
      OneFirst(s, p[0], ts);
      if s != "" {
        RecursiveDecides(s[1..], p[1..]);
      }
    }
  }

  lemma OneFirst(s: string, c: char, ts: seq<Token>)
    ensures InLanguage(s, [One(c)] + ts) <==> s != "" && Fits(c, s[0]) && InLanguage(s[1..], ts)
  {
    var all := [One(c)] + ts;
    assert all[1..] == ts;
    if s != "" && Fits(c, s[0]) && InLanguage(s[1..], ts) {
      assert CutAt(s, all, 1);
    }
  }

  lemma StarFirst(s: string, c: char, ts: seq<Token>)
    ensures InLanguage(s, [Star(c)] + ts) <==>
              InLanguage(s, ts) || (s != "" && Fits(c, s[0]) && InLanguage(s[1..], [Star(c)] + ts))
  {
    var all := [Star(c)] + ts;
    assert all[0] == Star(c) && all[1..] == ts && s[0..] == s;
    if InLanguage(s, all) {
      var k := Cut(s, all);
      if k > 0 {
        StarShorter(s, c, all, k);
        assert CutAt(s[1..], all, k - 1);
      }
    }
    if InLanguage(s, ts) {
      assert CutAt(s, all, 0);
    }
    if s != "" && Fits(c, s[0]) && InLanguage(s[1..], all) {
      var k := Cut(s[1..], all);
      StarLonger(s, c, all, k);
      assert CutAt(s, all, k + 1);
    }
  }

  // A piece for a star, with its first character taken off or put in front.
  lemma StarShorter(s: string, c: char, all: seq<Token>, k: nat)
    requires all != [] && all[0] == Star(c) && k > 0 && CutAt(s, all, k)
    ensures Fits(c, s[0]) && CutAt(s[1..], all, k - 1)
  {
    hide InLanguage;
    assert s[..k][0] == s[0] && s[1..][..k - 1] == s[..k][1..] && s[1..][k - 1..] == s[k..];
  }

  lemma StarLonger(s: string, c: char, all: seq<Token>, k: nat)
    requires all != [] && all[0] == Star(c) && s != "" && Fits(c, s[0]) && CutAt(s[1..], all, k)
    ensures CutAt(s, all, k + 1)
  {
    hide InLanguage;
    assert s[..k + 1] == [s[0]] + s[1..][..k] && s[1..][k..] == s[k + 1..];
  }

  // ---------------------------------------------------------------------------------------
  // From the right

  ghost predicate CutLast(s: string, ts: seq<Token>, t: Token, k: int) {
    0 <= k <= |s| && InLanguage(s[..k], ts) && Piece(t, s[k..])
  }

  lemma SliceTwice(s: string, k: nat, m: nat)
    requires k <= m <= |s|
    ensures s[..m][..k] == s[..k] && s[..m][k..] == s[k..][..m - k] && s[k..][m - k..] == s[m..]
  {
  }

  // Splitting off the last token from what follows the first, and the first from what precedes the last.
  lemma LastFromRest(s: string, ts: seq<Token>, t: Token, k: nat, m: nat)
    requires ts != [] && k <= |s| && Piece(ts[0], s[..k]) && CutLast(s[k..], ts[1..], t, m)
    ensures CutLast(s, ts, t, k + m)
  {
    SliceTwice(s, k, k + m);
    assert CutAt(s[..k + m], ts, k);
  }

  lemma FirstFromRest(s: string, ts: seq<Token>, t: Token, k: nat, m: nat)
    requires ts != [] && CutLast(s, ts, t, m) && CutAt(s[..m], ts, k)
    ensures k <= m && Piece(ts[0], s[..k]) && CutLast(s[k..], ts[1..], t, m - k)
  {
    SliceTwice(s, k, m);
  }

  lemma {:induction false} LastToken(s: string, ts: seq<Token>, t: Token)
    ensures InLanguage(s, ts + [t]) <==> exists k :: CutLast(s, ts, t, k)
  {
    var all := ts + [t];
    if ts == [] {
      assert all == [t] && all[1..] == [];
      if InLanguage(s, all) {
        var k := Cut(s, all);
        assert k == |s| && s[..k] == s && s[0..] == s;
        assert CutLast(s, ts, t, 0);
      }
      if k :| CutLast(s, ts, t, k) {
        assert k == 0 && s[0..] == s && s[..|s|] == s;
        assert CutAt(s, all, |s|);
      }
    } else {
      assert all[0] == ts[0] && all[1..] == ts[1..] + [t];
      if InLanguage(s, all) {
        var k := Cut(s, all);
        hide InLanguage, Piece;
        LastToken(s[k..], ts[1..], t);
        var m :| CutLast(s[k..], ts[1..], t, m);
        hide CutLast;
        LastFromRest(s, ts, t, k, m);
      }
      if m :| CutLast(s, ts, t, m) {
        var k := Cut(s[..m], ts);
        hide CutLast, Piece;
        FirstFromRest(s, ts, t, k, m);
        LastToken(s[k..], ts[1..], t);
        assert CutAt(s, all, k);
      }
    }
  }

  lemma OneLast(s: string, ts: seq<Token>, c: char)
    ensures InLanguage(s, ts + [One(c)]) <==>
              s != "" && Fits(c, s[|s| - 1]) && InLanguage(s[..|s| - 1], ts)
  {
    LastToken(s, ts, One(c));
    if k :| CutLast(s, ts, One(c), k) {
      assert k == |s| - 1 && s[k..][0] == s[k];
    }
    if s != "" && Fits(c, s[|s| - 1]) && InLanguage(s[..|s| - 1], ts) {
      assert CutLast(s, ts, One(c), |s| - 1);
    }
  }

  lemma StarLast(s: string, ts: seq<Token>, c: char)
    ensures InLanguage(s, ts + [Star(c)]) <==>
              || InLanguage(s, ts)
              || (s != "" && Fits(c, s[|s| - 1]) && InLanguage(s[..|s| - 1], ts + [Star(c)]))
  {
    hide InLanguage;
    var n := |s|;
    LastToken(s, ts, Star(c));
    assert s[..n] == s;
    if s != "" {
      var r := s[..n - 1];
      LastToken(r, ts, Star(c));
      if k :| CutLast(s, ts, Star(c), k) {
        if k < n {
          assert s[k..][n - 1 - k] == s[n - 1] && r[..k] == s[..k] && r[k..] == s[k..][..n - 1 - k];
          assert CutLast(r, ts, Star(c), k);
        }
      }
      if k :| CutLast(r, ts, Star(c), k) {
        if Fits(c, s[n - 1]) {
          assert s[k..] == r[k..] + [s[n - 1]] && r[..k] == s[..k];
          assert CutLast(s, ts, Star(c), k);
        }
      }
    }
    if InLanguage(s, ts) {
      assert CutLast(s, ts, Star(c), n);
    }
  }

  // The tokens that the table finds, from the right: a '*' takes the character before it.
  function TokensRight(p: string): seq<Token> {
    var n := |p|;
    if p == "" then []
    else if n > 1 && p[n - 1] == '*' then TokensRight(p[..n - 2]) + [Star(p[n - 2])]
    else TokensRight(p[..n - 1]) + [One(p[n - 1])]
  }

  // ---------------------------------------------------------------------------------------
  // Where both readings of a pattern agree

  function Leading(p: string): (k: nat)
    ensures k <= |p| && (forall i :: 0 <= i < k ==> p[i] == '*') && (k < |p| ==> p[k] != '*')
  {
    if p == "" || p[0] != '*' then 0 else 1 + Leading(p[1..])
  }

  // Every run of '*' that follows a character is of odd length.
  predicate OddRuns(p: string) {
    p == "" ||
    var k := Leading(p[1..]);
    (k == 0 || k % 2 == 1) && OddRuns(p[k + 1..])
  }

  predicate StarsFirst(p: string) {
    p != "" && p[0] == '*'
  }

  // What is read from the left, and from the right, of x and k times '*'.
  ghost function GroupLeft(x: char, k: nat): seq<Token>
    decreases k
  {
    if k == 0 then [One(x)] else if k == 1 then [Star(x)] else [Star(x)] + GroupLeft('*', k - 2)
  }

  ghost function GroupRight(x: char, k: nat): seq<Token>
    decreases k
  {
    if k == 0 then [One(x)] else if k == 1 then [Star(x)] else GroupRight(x, k - 2) + [Star('*')]
  }

  lemma {:induction false} LeadingIs(p: string, k: nat)
    requires k <= |p| && (forall i :: 0 <= i < k ==> p[i] == '*') && (k < |p| ==> p[k] != '*')
    ensures Leading(p) == k
  {
    if k > 0 {
      LeadingIs(p[1..], k - 1);
    }
  }

  lemma NextGroup(p: string, k: nat)
    requires p != "" && k == Leading(p[1..]) && k > 1
    ensures p[1] == p[2] == '*' && Leading(p[2..][1..]) == k - 2 && p[2..][k - 1..] == p[k + 1..]
  {
    var t, u := p[1..], p[2..][1..];
    assert p[1] == t[0] && p[2] == t[1];
    forall i | 0 <= i < |u| ensures u[i] == t[i + 2] {
    }
    LeadingIs(u, k - 2);
  }

  lemma LeftStep(p: string)
    requires p != ""
    ensures var k := Leading(p[1..]);
      Tokens(p) == if k == 0 then [One(p[0])] + Tokens(p[1..]) else [Star(p[0])] + Tokens(p[2..])
  {
    assert |p| > 1 ==> p[1] == p[1..][0];
  }

  lemma {:induction false} LeftGroup(p: string)
    requires p != ""
    ensures var k := Leading(p[1..]); Tokens(p) == GroupLeft(p[0], k) + Tokens(p[k + 1..])
    decreases |p|
  {
    var k := Leading(p[1..]);
    LeftStep(p);
    hide Tokens, Leading;
    if k > 1 {
      NextGroup(p, k);
      var q, rest := p[2..], p[k + 1..];
      LeftGroup(q);
      assert GroupLeft(p[0], k) == [Star(p[0])] + GroupLeft('*', k - 2);
      hide GroupLeft;
      Regroup([Star(p[0])], GroupLeft('*', k - 2), Tokens(rest));
    }
  }

  lemma Regroup(a: seq<Token>, b: seq<Token>, c: seq<Token>)
    ensures a + (b + c) == a + b + c
  {
  }

  lemma RightStep(p: string)
    requires p != ""
    ensures var n := |p|;
      TokensRight(p) ==
      if n > 1 && p[n - 1] == '*' then TokensRight(p[..n - 2]) + [Star(p[n - 2])]
      else TokensRight(p[..n - 1]) + [One(p[n - 1])]
  {
  }

  lemma {:induction false} RightSum(p: string, q: string)
    requires !StarsFirst(q)
    ensures TokensRight(p + q) == TokensRight(p) + TokensRight(q)
    decreases |q|
  {
    var n, s := |q|, p + q;
    if n == 0 {
      assert s == p;
    } else {
      hide TokensRight;
      RightStep(s);
      RightStep(q);
      assert s[|s| - 1] == q[n - 1];
      var right := TokensRight(p);
      if n > 1 && q[n - 1] == '*' {
        var r := q[..n - 2];
        assert s[..|s| - 2] == p + r && s[|s| - 2] == q[n - 2];
        RightSum(p, r);
        Regroup(right, TokensRight(r), [Star(q[n - 2])]);
      } else {
        var r := q[..n - 1];
        assert s[..|s| - 1] == p + r;
        assert |s| > 1 && s[|s| - 1] == '*' ==> n > 1;
        RightSum(p, r);
        Regroup(right, TokensRight(r), [One(q[n - 1])]);
      }
    }
  }

  lemma {:induction false} RightOfGroup(p: string)
    requires p != "" && forall i :: 1 <= i < |p| ==> p[i] == '*'
    ensures TokensRight(p) == GroupRight(p[0], |p| - 1)
    decreases |p|
  {
    var n := |p|;
    if n == 1 {
      assert p[..0] == "" && TokensRight(p[..0]) == [];
    } else if n == 2 {
      assert p[..0] == "" && TokensRight(p[..0]) == [];
    } else {
      RightOfGroup(p[..n - 2]);
    }
  }

  lemma RightGroup(p: string)
    requires p != ""
    ensures var k := Leading(p[1..]);
      TokensRight(p) == GroupRight(p[0], k) + TokensRight(p[k + 1..]) && !StarsFirst(p[k + 1..])
  {
    hide TokensRight, GroupRight;
    var k := Leading(p[1..]);
    var g, rest := p[..k + 1], p[k + 1..];
    assert k + 1 < |p| ==> p[k + 1] == p[1..][k];
    forall i | 1 <= i < |g| ensures g[i] == '*' {
      assert g[i] == p[1..][i - 1];
    }
    assert p == g + rest;
    RightSum(g, rest);
    RightOfGroup(g);
  }

  lemma {:induction false} LongerGroup(x: char, k: nat)
    requires k % 2 == 1
    ensures GroupLeft(x, k + 2) == GroupLeft(x, k) + [Star('*')]
    decreases k
  {
    if k > 1 {
      LongerGroup('*', k - 2);
    } else {
      assert GroupLeft('*', 1) == [Star('*')];
    }
  }

  lemma {:induction false} OddGroup(x: char, k: nat)
    requires k == 0 || k % 2 == 1
    ensures GroupLeft(x, k) == GroupRight(x, k)
  {
    if k > 1 {
      OddGroup(x, k - 2);
      LongerGroup(x, k - 2);
    }
  }

  lemma {:induction false} SameTokens(p: string)
    requires OddRuns(p) && !StarsFirst(p)
    ensures Tokens(p) == TokensRight(p)
    decreases |p|
  {
    if p != "" {
      LeftGroup(p);
      RightGroup(p);
      OddGroup(p[0], Leading(p[1..]));
      hide Tokens, TokensRight, GroupLeft, GroupRight;
      SameTokens(p[Leading(p[1..]) + 1..]);
    }
  }

  lemma {:induction false} WellFormedIsOdd(p: string)
    requires WellFormed(p)
    ensures OddRuns(p) && !StarsFirst(p)
    decreases |p|
  {
    if p != "" {
      var k := Leading(p[1..]);
      assert |p| > 1 ==> p[1] == p[1..][0];
      assert |p| > 2 ==> p[2] == p[1..][1];
      assert k + 1 < |p| ==> p[k + 1] == p[1..][k];
      WellFormedIsOdd(p[k + 1..]);
    }
  }

  // The characters that must be matched once.
  ghost function Ones(ts: seq<Token>): string {
    if ts == [] then "" else (if ts[0].One? then [ts[0].c] else "") + Ones(ts[1..])
  }

  lemma {:induction false} OnesSum(a: seq<Token>, b: seq<Token>)
    ensures Ones(a + b) == Ones(a) + Ones(b)
  {
    if a == [] {
      assert a + b == b;
    } else {
      var s, first := a + b, if a[0].One? then [a[0].c] else "";
      assert s[0] == a[0] && s[1..] == a[1..] + b;
      OnesSum(a[1..], b);
      assert Ones(s) == first + Ones(s[1..]) && Ones(a) == first + Ones(a[1..]);
      hide Ones;
      assert first + (Ones(a[1..]) + Ones(b)) == first + Ones(a[1..]) + Ones(b);
    }
  }

  lemma OnesOfGroups(x: char, k: nat)
    ensures Ones(GroupLeft(x, k)) == if k == 0 then [x] else if k % 2 == 0 then "*" else ""
    ensures Ones(GroupRight(x, k)) == if k % 2 == 0 then [x] else ""
  {
    OnesOfLeft(x, k);
    OnesOfRight(x, k);
  }

  lemma {:induction false} OnesOfLeft(x: char, k: nat)
    ensures Ones(GroupLeft(x, k)) == if k == 0 then [x] else if k % 2 == 0 then "*" else ""
    decreases k
  {
    hide Ones;
    OneOnly(x);
    if k > 1 {
      OnesOfLeft('*', k - 2);
      OnesSum([Star(x)], GroupLeft('*', k - 2));
    }
  }

  lemma {:induction false} OnesOfRight(x: char, k: nat)
    ensures Ones(GroupRight(x, k)) == if k % 2 == 0 then [x] else ""
    decreases k
  {
    hide Ones;
    OneOnly(x);
    if k > 1 {
      OneOnly('*');
      OnesOfRight(x, k - 2);
      OnesSum(GroupRight(x, k - 2), [Star('*')]);
    }
  }

  lemma OneOnly(x: char)
    ensures Ones([One(x)]) == [x] && Ones([Star(x)]) == ""
  {
  }

  // The first group of a pattern, and what follows it.
  lemma OnesInFront(p: string)
    requires p != ""
    ensures var k := Leading(p[1..]);
      var rest := p[k + 1..];
      && !StarsFirst(rest)
      && Ones(Tokens(p)) == (if k == 0 then [p[0]] else if k % 2 == 0 then "*" else "") + Ones(Tokens(rest))
      && Ones(TokensRight(p)) == (if k % 2 == 0 then [p[0]] else "") + Ones(TokensRight(rest))
  {
    hide Tokens, TokensRight, GroupLeft, GroupRight, Ones;
    var k := Leading(p[1..]);
    var rest := p[k + 1..];
    LeftGroup(p);
    RightGroup(p);
    OnesOfGroups(p[0], k);
    OnesSum(GroupLeft(p[0], k), Tokens(rest));
    OnesSum(GroupRight(p[0], k), TokensRight(rest));
  }

  // Both readings ask for equally many single characters; after an even run one asks for '*'
  // where the other asks for the character before the run.
  lemma {:induction false} OnesCompared(p: string) returns (i: nat)
    requires !StarsFirst(p)
    ensures |Ones(Tokens(p))| == |Ones(TokensRight(p))|
    ensures !OddRuns(p) ==> i < |Ones(Tokens(p))| && Ones(Tokens(p))[i] == '*' != Ones(TokensRight(p))[i]
    decreases |p|
  {
    i := 0;
    if p != "" {
      var k := Leading(p[1..]);
      var rest := p[k + 1..];
      OnesInFront(p);
      hide Tokens, TokensRight, Ones, Leading;
      var j := OnesCompared(rest);
      i := GroupCompared(p[0], k, Ones(Tokens(rest)), Ones(TokensRight(rest)), OddRuns(rest), j);
    } else {
      NoOnes();
    }
  }

  lemma GroupCompared(x: char, k: nat, a: string, b: string, odd: bool, j: nat) returns (i: nat)
    requires x != '*' && |a| == |b| && (!odd ==> j < |a| && a[j] == '*' != b[j])
    ensures var left := (if k == 0 then [x] else if k % 2 == 0 then "*" else "") + a;
      var right := (if k % 2 == 0 then [x] else "") + b;
      && |left| == |right|
      && (((k == 0 || k % 2 == 1) && odd) || (i < |left| && left[i] == '*' != right[i]))
  {
    i := if k == 0 then j + 1 else if k % 2 == 0 then 0 else j;
  }

  lemma NoOnes()
    ensures Ones(Tokens("")) == Ones(TokensRight("")) == ""
  {
  }

  // A shortest string of the language; for '.' it has a letter.
  ghost function Shortest(ts: seq<Token>): (w: string)
    ensures |w| == |Ones(ts)|
    ensures forall i :: 0 <= i < |w| ==> w[i] == if Ones(ts)[i] == '.' then 'z' else Ones(ts)[i]
  {
    if ts == [] then ""
    else if ts[0].One? then [if ts[0].c == '.' then 'z' else ts[0].c] + Shortest(ts[1..])
    else Shortest(ts[1..])
  }

  lemma {:induction false} ShortestIn(ts: seq<Token>)
    ensures InLanguage(Shortest(ts), ts)
  {
    if ts != [] {
      var w := Shortest(ts);
      ShortestIn(ts[1..]);
      if ts[0].One? {
        assert w[1..] == Shortest(ts[1..]);
        assert CutAt(w, ts, 1);
      } else {
        assert w[0..] == w;
        assert CutAt(w, ts, 0);
      }
    }
  }

  // A string of the language is no shorter, and if it is as short it has just the single characters.
  lemma {:induction false} NoSlack(w: string, ts: seq<Token>)
    requires InLanguage(w, ts)
    ensures |w| >= |Ones(ts)|
    ensures |w| == |Ones(ts)| ==> AllFit(Ones(ts), w)
  {
    if ts != [] {
      var k := Cut(w, ts);
      var u, v, ones := w[..k], w[k..], Ones(ts[1..]);
      var first := if ts[0].One? then [ts[0].c] else "";
      assert Ones(ts) == first + ones && (ts[0].One? ==> |u| == 1 && AllFit(first, u));
      NoSlack(v, ts[1..]);
      hide InLanguage, Ones;
      assert w == u + v;
      if |w| == |first| + |ones| {
        FitTogether(first, u, ones, v);
      }
    }
  }

  ghost predicate AllFit(ones: string, w: string) {
    |ones| == |w| && forall i :: 0 <= i < |w| ==> Fits(ones[i], w[i])
  }

  lemma FitTogether(a: string, u: string, b: string, v: string)
    requires AllFit(a, u) && AllFit(b, v)
    ensures AllFit(a + b, u + v)
  {
  }

  // The table and the recursion accept the same strings if and only if every run of '*' in the
  // pattern is of odd length.
  lemma AgreeExactly(p: string)
    requires !StarsFirst(p)
    ensures (forall s :: InLanguage(s, TokensRight(p)) <==> IsMatchRecursive(s, p)) <==> OddRuns(p)
  {
    if OddRuns(p) {
      SameTokens(p);
      forall s ensures InLanguage(s, TokensRight(p)) <==> IsMatchRecursive(s, p) {
        RecursiveDecides(s, p);
      }
    } else {
      var i := OnesCompared(p);
      var w := Shortest(TokensRight(p));
      ShortestIn(TokensRight(p));
      RecursiveDecides(w, p);
      assert w[i] != '*';
      if InLanguage(w, Tokens(p)) {
        NoSlack(w, Tokens(p));
        assert false;
      }
      assert InLanguage(w, TokensRight(p)) && !IsMatchRecursive(w, p);
    }
  }

  // ---------------------------------------------------------------------------------------
  // The table

  ghost predicate Matched(s: string, p: string, i: nat, j: nat)
    requires i <= |s| && j <= |p|
  {
    InLanguage(s[..i], TokensRight(p[..j]))
  }

  lemma FirstRow(s: string, p: string, j: nat)
    requires 1 <= j <= |p|
    ensures Matched(s, p, 0, j) <==> j > 1 && p[j - 1] == '*' && Matched(s, p, 0, j - 2)
  {
    var q := p[..j];
    if j > 1 && p[j - 1] == '*' {
      assert q[..j - 2] == p[..j - 2];
      StarLast(s[..0], TokensRight(q[..j - 2]), p[j - 2]);
    } else {
      OneLast(s[..0], TokensRight(q[..j - 1]), p[j - 1]);
    }
  }

  lemma Cell(s: string, p: string, i: nat, j: nat)
    requires !StarsFirst(p) && 1 <= i <= |s| && 1 <= j <= |p|
    ensures p[j - 1] != '*' ==>
              (Matched(s, p, i, j) <==> Matched(s, p, i - 1, j - 1) && Fits(p[j - 1], s[i - 1]))
    ensures p[j - 1] == '*' ==>
              && j > 1
              && (Matched(s, p, i, j) <==>
                    Matched(s, p, i, j - 2) || (Matched(s, p, i - 1, j) && Fits(p[j - 2], s[i - 1])))
  {
    var w, q := s[..i], p[..j];
    assert w[..i - 1] == s[..i - 1];
    if p[j - 1] == '*' {
      assert q[..j - 2] == p[..j - 2];
      StarLast(w, TokensRight(q[..j - 2]), p[j - 2]);
    } else {
      assert q[..j - 1] == p[..j - 1];
      OneLast(w, TokensRight(q[..j - 1]), p[j - 1]);
    }
  }

  // A '*' at the beginning makes the original read before the start of the pattern, unless the
  // string is empty.
  method IsMatchDP(s: string, p: string) returns (matches: bool)
    requires s == "" || !StarsFirst(p)
    ensures matches <==> InLanguage(s, TokensRight(p))
    ensures OddRuns(p) && !StarsFirst(p) ==> (matches <==> IsMatchRecursive(s, p))
    ensures WellFormed(p) ==> (matches <==> InLanguage(s, Tokens(p))) && (matches <==> IsMatchRecursive(s, p))
  {
    hide Matched, InLanguage, Tokens, TokensRight, WellFormed, IsMatchRecursive, OddRuns;
    var m, n := |s|, |p|;
    var dp := new bool[m + 1, n + 1]((i, j) => false);
    dp[0, 0] := true;
    Corner(s, p);
    for j := 1 to n + 1
      invariant forall l :: 0 <= l < j ==> dp[0, l] == Matched(s, p, 0, l)
      invariant forall k :: 1 <= k <= m ==> !dp[k, 0]
    {
      FirstRow(s, p, j);
      dp[0, j] := j > 1 && p[j - 1] == '*' && dp[0, j - 2];
    }
    for i := 1 to m + 1
      invariant forall k, l :: 0 <= k <= m && 0 <= l <= n && (k < i || l == 0) ==> dp[k, l] == Matched(s, p, k, l)
    {
      for j := 1 to n + 1
        invariant forall k, l :: 0 <= k <= m && 0 <= l <= n && (k < i || l == 0 || (k == i && l < j)) ==>
                    dp[k, l] == Matched(s, p, k, l)
      {
        Cell(s, p, i, j);
        if p[j - 1] != '*' {
          dp[i, j] := dp[i - 1, j - 1] && Fits(p[j - 1], s[i - 1]);
        } else {
          dp[i, j] := dp[i, j - 2] || (dp[i - 1, j] && Fits(p[j - 2], s[i - 1]));
        }
      }
    }
    Whole(s, p);
    matches := dp[m, n];
    BothReadings(s, p);
  }

  lemma BothReadings(s: string, p: string)
    ensures IsMatchRecursive(s, p) <==> InLanguage(s, Tokens(p))
    ensures OddRuns(p) && !StarsFirst(p) ==> Tokens(p) == TokensRight(p)
    ensures WellFormed(p) ==> OddRuns(p) && !StarsFirst(p)
  {
    RecursiveDecides(s, p);
    if WellFormed(p) { WellFormedIsOdd(p); }
    if OddRuns(p) && !StarsFirst(p) { SameTokens(p); }
  }

  lemma Corner(s: string, p: string)
    ensures Matched(s, p, 0, 0)
    ensures forall k :: 1 <= k <= |s| ==> !Matched(s, p, k, 0)
  {
    assert p[..0] == "" && s[..0] == "";
    assert TokensRight("") == [];
  }

  lemma Whole(s: string, p: string)
    ensures Matched(s, p, |s|, |p|) <==> InLanguage(s, TokensRight(p))
  {
    assert s[..|s|] == s && p[..|p|] == p;
  }
}
