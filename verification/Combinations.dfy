/** `nextcomb` of golay.c: stepping through the r-element subsets of 1..n. */
module Combinations {

  /** Strictly increasing, drawn from lo..n. */
  ghost predicate IsComb(lo: int, n: int, s: seq<int>) {
    && (forall i | 0 <= i < |s| :: lo <= s[i] <= n)
    && (forall i, j | 0 <= i < j < |s| :: s[i] < s[j])
  }

  /** Lexicographic order on tuples of the same length. */
  ghost predicate Less(s: seq<int>, t: seq<int>)
    requires |s| == |t|
  {
    |s| > 0 && (s[0] < t[0] || (s[0] == t[0] && Less(s[1..], t[1..])))
  }

  /** `t` comes right after `s`: larger, and nothing lies between. */
  ghost predicate IsSuccessor(n: int, s: seq<int>, t: seq<int>) {
    && IsComb(1, n, s) && IsComb(1, n, t) && |s| == |t| && Less(s, t)
    && forall u | IsComb(1, n, u) && |u| == |s| :: !(Less(s, u) && Less(u, t))
  }

  function First(lo: int, r: nat): (s: seq<int>)
    ensures |s| == r && forall i | 0 <= i < r :: s[i] == lo + i
  {
    seq(r, i => lo + i)
  }

  /** n choose k, by Pascal's rule. */
  function Choose(n: nat, k: nat): nat {
    if k == 0 then 1 else if n == 0 then 0 else Choose(n - 1, k - 1) + Choose(n - 1, k)
  }

  /** How many combinations drawn from lo..n come before `s`. */
  ghost function Rank(lo: int, n: int, s: seq<int>): nat
    requires IsComb(lo, n, s)
    decreases n - lo + 1
  {
    if s == [] then 0
    else if s[0] == lo then Rank(lo + 1, n, s[1..])
    else Choose(n - lo, |s| - 1) + Rank(lo + 1, n, s)
  }

  lemma TailComb(lo: int, n: int, s: seq<int>)
    requires IsComb(lo, n, s) && s != []
    ensures IsComb(lo + 1, n, s[1..])
  {
    assert forall i | 0 < i < |s| :: s[0] < s[i];
  }

  lemma RaiseComb(lo: int, n: int, s: seq<int>)
    requires IsComb(lo, n, s) && s != [] && s[0] != lo
    ensures IsComb(lo + 1, n, s)
  {
    assert forall i | 0 < i < |s| :: s[0] < s[i];
  }

  // ----- ranks number the combinations in lexicographic order

  lemma {:induction false} RankBound(lo: int, n: int, s: seq<int>)
    requires IsComb(lo, n, s) && lo <= n + 1
    ensures Rank(lo, n, s) < Choose(n - lo + 1, |s|)
    decreases n - lo + 1
  {
    if s != [] {
      if s[0] == lo {
        RankBound(lo + 1, n, s[1..]);
      } else {
        RankBound(lo + 1, n, s);
      }
    }
  }

  lemma {:induction false} RankOrder(lo: int, n: int, s: seq<int>, t: seq<int>)
    requires IsComb(lo, n, s) && IsComb(lo, n, t) && |s| == |t|
    ensures Less(s, t) <==> Rank(lo, n, s) < Rank(lo, n, t)
    ensures s == t <==> Rank(lo, n, s) == Rank(lo, n, t)
    decreases n - lo + 1
  {
    if s != [] {
      if s[0] == lo && t[0] == lo {
        TailComb(lo, n, s);
        TailComb(lo, n, t);
        RankOrder(lo + 1, n, s[1..], t[1..]);
        assert s == [lo] + s[1..] && t == [lo] + t[1..];
      } else if s[0] == lo {
        TailComb(lo, n, s);
        RankBound(lo + 1, n, s[1..]);
      } else if t[0] == lo {
        TailComb(lo, n, t);
        RankBound(lo + 1, n, t[1..]);
      } else {
        RaiseComb(lo, n, s);
        RaiseComb(lo, n, t);
        RankOrder(lo + 1, n, s, t);
      }
    }
  }

  /** Every rank is taken. */
  lemma {:induction false} Unrank(lo: int, n: int, r: nat, k: nat) returns (s: seq<int>)
    requires lo <= n + 1 && k < Choose(n - lo + 1, r)
    ensures IsComb(lo, n, s) && |s| == r && Rank(lo, n, s) == k
    decreases n - lo + 1
  {
    if r == 0 {
      s := [];
    } else if k < Choose(n - lo, r - 1) {
      var t := Unrank(lo + 1, n, r - 1, k);
      s := [lo] + t;
      assert s[1..] == t;
    } else {
      s := Unrank(lo + 1, n, r, k - Choose(n - lo, r - 1));
    }
  }

  lemma {:induction false} FirstRank(lo: int, n: int, r: nat)
    requires lo + r <= n + 1
    ensures IsComb(lo, n, First(lo, r)) && Rank(lo, n, First(lo, r)) == 0
    decreases r
  {
    if r > 0 {
      FirstRank(lo + 1, n, r - 1);
      assert First(lo, r)[1..] == First(lo + 1, r - 1);
    }
  }

  /** The topmost combination n-r+1, ..., n has the last rank. */
  lemma {:induction false} LastRank(lo: int, n: int, r: nat)
    requires lo + r <= n + 1
    ensures IsComb(lo, n, First(n - r + 1, r))
    ensures Rank(lo, n, First(n - r + 1, r)) == Choose(n - lo + 1, r) - 1
    decreases n - lo + 1
  {
    if r > 0 {
      var s := First(n - r + 1, r);
      if s[0] == lo {
        assert s[1..] == First(n - r + 2, r - 1);
        LastRank(lo + 1, n, r - 1);
        ChooseFew(n - lo, r);
      } else {
        LastRank(lo + 1, n, r);
      }
    }
  }

  lemma {:induction false} ChooseFew(n: nat, k: nat)
    requires n < k
    ensures Choose(n, k) == 0
  {
    if n > 0 {
      ChooseFew(n - 1, k - 1);
      ChooseFew(n - 1, k);
    }
  }

  // ----- one step of nextcomb

  /** Bumping `x` while everything after it sits at its maximum moves one rank up. */
  lemma {:induction false} BumpRank(lo: int, n: int, x: int, r: nat)
    requires lo <= x && x + r < n
    ensures IsComb(lo, n, [x] + First(n - r + 1, r)) && IsComb(lo, n, First(x + 1, r + 1))
    ensures Rank(lo, n, First(x + 1, r + 1)) == Rank(lo, n, [x] + First(n - r + 1, r)) + 1
    decreases x - lo
  {
    var s, t := [x] + First(n - r + 1, r), First(x + 1, r + 1);
    if lo == x {
      assert s[1..] == First(n - r + 1, r);
      LastRank(x + 1, n, r);
      FirstRank(x + 1, n, r + 1);
    } else {
      BumpRank(lo + 1, n, x, r);
    }
  }

  /** A common prefix shifts both ranks by the same amount. */
  lemma {:induction false} PrefixRank(lo: int, n: int, p: seq<int>, mid: int, s: seq<int>, t: seq<int>)
    requires |s| == |t| && IsComb(lo, n, p + s) && IsComb(lo, n, p + t)
    requires mid == if p == [] then lo else p[|p| - 1] + 1
    requires IsComb(mid, n, s) && IsComb(mid, n, t) && Rank(mid, n, t) == Rank(mid, n, s) + 1
    ensures Rank(lo, n, p + t) == Rank(lo, n, p + s) + 1
    decreases n - lo + 1
  {
    if p == [] {
      assert p + s == s && p + t == t;
    } else {
      assert (p + s)[0] == p[0] == (p + t)[0];
      if p[0] == lo {
        assert (p + s)[1..] == p[1..] + s && (p + t)[1..] == p[1..] + t;
        TailComb(lo, n, p + s);
        TailComb(lo, n, p + t);
        PrefixRank(lo + 1, n, p[1..], mid, s, t);
      } else {
        RaiseComb(lo, n, p + s);
        RaiseComb(lo, n, p + t);
        PrefixRank(lo + 1, n, p, mid, s, t);
      }
    }
  }

  /** What nextcomb does to a tuple: bump position j, restart everything after it. */
  function Step(s: seq<int>, j: nat): (t: seq<int>)
    requires j < |s|
    ensures |t| == |s|
  {
    s[..j] + First(s[j] + 1, |s| - j)
  }

  lemma StepRank(n: int, s: seq<int>, j: nat)
    requires IsComb(1, n, s) && j < |s| && s[j] < n - |s| + 1 + j
    requires s[j + 1..] == First(n - |s| + j + 2, |s| - j - 1)
    ensures IsComb(1, n, Step(s, j)) && Rank(1, n, Step(s, j)) == Rank(1, n, s) + 1
  {
    hide IsComb, Rank, First, Step;
    var p, r := s[..j], |s| - j - 1;
    var rest, rest' := [s[j]] + First(n - r + 1, r), First(s[j] + 1, r + 1);
    var mid := if p == [] then 1 else p[|p| - 1] + 1;
    StepParts(n, s, j);
    MidBelow(n, s, j);
    StepComb(n, s, j);
    BumpRank(mid, n, s[j], r);
    PrefixRank(1, n, p, mid, rest, rest');
  }

  lemma StepParts(n: int, s: seq<int>, j: nat)
    requires j < |s| && s[j + 1..] == First(n - |s| + j + 2, |s| - j - 1)
    ensures var r := |s| - j - 1;
            s == s[..j] + ([s[j]] + First(n - r + 1, r)) && Step(s, j) == s[..j] + First(s[j] + 1, r + 1)
  {
    hide First;
  }

  lemma MidBelow(n: int, s: seq<int>, j: nat)
    requires IsComb(1, n, s) && j < |s|
    ensures (if s[..j] == [] then 1 else s[..j][j - 1] + 1) <= s[j]
  {
  }

  lemma StepComb(n: int, s: seq<int>, j: nat)
    requires IsComb(1, n, s) && j < |s| && s[j] < n - |s| + 1 + j
    ensures IsComb(1, n, Step(s, j))
  {
    var t := Step(s, j);
    assert forall i | 0 <= i < |s| :: t[i] == if i < j then s[i] else s[j] + 1 + i - j;
    forall i | 0 <= i < |t|
      ensures 1 <= t[i] <= n
    {
      assert 1 <= s[j] && (i < j ==> 1 <= s[i] <= n);
    }
    forall i, k | 0 <= i < k < |t|
      ensures t[i] < t[k]
    {
      if i < j <= k {
        assert s[i] < s[j];
      }
    }
  }

  lemma SuccessorByRank(n: nat, s: seq<int>, t: seq<int>)
    requires IsComb(1, n, s) && IsComb(1, n, t) && |s| == |t|
    ensures IsSuccessor(n, s, t) <==> Rank(1, n, t) == Rank(1, n, s) + 1
  {
    RankOrder(1, n, s, t);
    if Rank(1, n, t) > Rank(1, n, s) + 1 {
      RankBound(1, n, t);
      var u := Unrank(1, n, |s|, Rank(1, n, s) + 1);
      RankOrder(1, n, s, u);
      RankOrder(1, n, u, t);
      assert Less(s, u) && Less(u, t);
    } else {
      forall u | IsComb(1, n, u) && |u| == |s|
        ensures Less(s, u) <==> Rank(1, n, s) < Rank(1, n, u)
        ensures Less(u, t) <==> Rank(1, n, u) < Rank(1, n, t)
      {
        RankOrder(1, n, s, u);
        RankOrder(1, n, u, t);
      }
    }
  }

  lemma StepIsSuccessor(n: nat, s: seq<int>, j: nat, t: seq<int>)
    requires IsComb(1, n, s) && j < |s| <= n && s[j] != n - |s| + 1 + j
    requires Topmost(n, s, j + 1)
    requires |t| == |s|
    requires forall i | 0 <= i < |s| :: t[i] == if i < j then s[i] else s[j] + 1 + i - j
    ensures IsSuccessor(n, s, t)
  {
    CombBelowTop(n, s, j);
    StepRank(n, s, j);
    SuccessorByRank(n, s, Step(s, j));
    assert t == Step(s, j);
  }

  /** In place on a[1..r], as in the source; a[0] is never touched. The caller must not ask
      for the successor of the last combination. */
  method NextComb(n: int, r: int, a: array<int>)
    requires 1 <= r <= n && r < a.Length
    requires IsComb(1, n, a[1..r + 1]) && a[1..r + 1] != First(n - r + 1, r)
    modifies a
    ensures IsSuccessor(n, old(a[1..r + 1]), a[1..r + 1])
    ensures forall i | i == 0 || r < i < a.Length :: a[i] == old(a[i])
  {
    hide IsComb, IsSuccessor, First, Topmost;
    ghost var s := a[1..r + 1];
    TopmostEnd(n, s);
    a[r] := a[r] + 1;
    if a[r] <= n {
      StepIsSuccessor(n, s, r - 1, a[1..r + 1]);
      return;
    }
    var j := r - 1;
    CombBelowTop(n, s, j);
    TopmostFrom(n, s, j);
    NotTopmost(n, s, j);
    while a[j] == n - r + j
      invariant 1 <= j < r
      invariant Topmost(n, s, j)
      modifies {}
      decreases j
    {
      TopmostFrom(n, s, j - 1);
      NotTopmost(n, s, j - 1);
      j := j - 1;
    }
    Restart(r, a, j);
    StepIsSuccessor(n, s, j - 1, a[1..r + 1]);
  }

  /** The loop that ends nextcomb: from position r down to j, count up from a[j] + 1. */
  method Restart(r: int, a: array<int>, j: int)
    requires 1 <= j <= r < a.Length
    modifies a
    ensures forall k | j <= k <= r :: a[k] == old(a[j]) + k - j + 1
    ensures forall k | 0 <= k < j || r < k < a.Length :: a[k] == old(a[k])
  {
    var i := r;
    while i >= j
      invariant j - 1 <= i <= r
      invariant forall k | i < k <= r :: a[k] == old(a[j]) + k - j + 1
      invariant forall k | 0 <= k <= i || k < j || r < k < a.Length :: 0 <= k ==> a[k] == old(a[k])
    {
      a[i] := a[j] + i - j + 1;
      i := i - 1;
    }
  }

  /** From position j on, the tuple counts up to n. */
  predicate Topmost(n: int, s: seq<int>, j: nat)
    requires j <= |s|
  {
    s[j..] == First(n - |s| + 1 + j, |s| - j)
  }

  lemma TopmostFrom(n: int, s: seq<int>, j: nat)
    requires j < |s| && s[j] == n - |s| + 1 + j && Topmost(n, s, j + 1)
    ensures Topmost(n, s, j)
  {
    assert s[j..] == [s[j]] + s[j + 1..];
  }

  lemma TopmostEnd(n: int, s: seq<int>)
    ensures Topmost(n, s, |s|)
  {}

  /** If everything after position j is topmost and the tuple is not the last one, then
      something at or before j is not topmost; so the search for it stops in time. */
  lemma NotTopmost(n: int, s: seq<int>, j: nat)
    requires IsComb(1, n, s) && j < |s| <= n && s != First(n - |s| + 1, |s|)
    requires Topmost(n, s, j)
    ensures j > 0
  {}

  lemma {:induction false} CombBelowTop(n: int, s: seq<int>, j: nat)
    requires IsComb(1, n, s) && j < |s|
    ensures s[j] <= n - |s| + 1 + j
    decreases |s| - j
  {
    if j < |s| - 1 {
      CombBelowTop(n, s, j + 1);
    }
  }

  // ----- a whole enumeration

  /** A run of nextcomb from 1, 2, ..., r, all C(n, r) states of it. */
  ghost predicate IsEnumeration(n: int, r: nat, states: seq<seq<int>>)
    requires n >= 0
  {
    && |states| == Choose(n, r)
    && (|states| > 0 ==> states[0] == First(1, r))
    && forall k | 0 < k < |states| :: IsSuccessor(n, states[k - 1], states[k])
  }

  lemma {:induction false} EnumerationRank(n: int, r: nat, states: seq<seq<int>>, k: nat)
    requires 0 <= r <= n && IsEnumeration(n, r, states) && k < |states|
    ensures |states[k]| == r && IsComb(1, n, states[k]) && Rank(1, n, states[k]) == k
  {
    if k == 0 {
      FirstRank(1, n, r);
    } else {
      EnumerationRank(n, r, states, k - 1);
      SuccessorByRank(n, states[k - 1], states[k]);
    }
  }

  lemma {:induction false} ChoosePositive(n: nat, k: nat)
    requires k <= n
    ensures Choose(n, k) > 0
  {
    if k > 0 {
      ChoosePositive(n - 1, k - 1);
    }
  }

  /** A combination that is not the last in rank is not the topmost one, so nextcomb may be called. */
  lemma NotLast(n: int, r: nat, s: seq<int>)
    requires 0 <= r <= n && IsComb(1, n, s) && |s| == r && Rank(1, n, s) < Choose(n, r) - 1
    ensures s != First(n - r + 1, r)
  {
    LastRank(1, n, r);
  }

  /** From 1, 2, ..., r, nextcomb can be called C(n,r) - 1 times, for all n and r; these calls are a
      whole enumeration. */
  method Enumerate(n: int, r: int) returns (a: array<int>, calls: nat, ghost states: seq<seq<int>>)
    requires 1 <= r <= n
    ensures calls == Choose(n, r) - 1 && IsEnumeration(n, r, states)
    ensures a.Length == r + 1 && a[1..] == states[calls]
  {
    hide IsComb, IsSuccessor, First, Choose, Rank;
    ChoosePositive(n, r);
    a := new int[r + 1](i => i);
    FirstIs(1, r, a[1..]);
    FirstRank(1, n, r);
    calls, states := 0, [a[1..]];
    while calls < Choose(n, r) - 1
      invariant calls < Choose(n, r) && |states| == calls + 1 && states[0] == First(1, r)
      invariant forall k | 0 < k < |states| :: IsSuccessor(n, states[k - 1], states[k])
      invariant a.Length == r + 1 && a[1..r + 1] == states[calls]
      invariant IsComb(1, n, a[1..r + 1]) && Rank(1, n, a[1..r + 1]) == calls
    {
      ghost var s := a[1..r + 1];
      NotLast(n, r, s);
      NextComb(n, r, a);
      SuccessorIsComb(n, s, a[1..r + 1]);
      SuccessorByRank(n, s, a[1..r + 1]);
      calls, states := calls + 1, states + [a[1..r + 1]];
    }
    assert a[1..] == a[1..r + 1];
  }

  lemma FirstIs(lo: int, r: nat, s: seq<int>)
    requires |s| == r && forall i | 0 <= i < r :: s[i] == lo + i
    ensures s == First(lo, r)
  {}

  lemma SuccessorIsComb(n: int, s: seq<int>, t: seq<int>)
    requires IsSuccessor(n, s, t)
    ensures IsComb(1, n, t) && |t| == |s|
  {}

  /** Every r-subset of 1..n is visited, and no two visits are to the same subset. */
  lemma EnumerationComplete(n: int, r: nat, states: seq<seq<int>>)
    requires 0 <= r <= n && IsEnumeration(n, r, states)
    ensures forall s | IsComb(1, n, s) && |s| == r :: s in states
    ensures forall j, k | 0 <= j < k < |states| :: states[j] != states[k]
  {
    forall s | IsComb(1, n, s) && |s| == r
      ensures s in states
    {
      RankBound(1, n, s);
      var k := Rank(1, n, s);
      EnumerationRank(n, r, states, k);
      RankOrder(1, n, s, states[k]);
    }
    forall j, k | 0 <= j < k < |states|
      ensures states[j] != states[k]
    {
      EnumerationRank(n, r, states, j);
      EnumerationRank(n, r, states, k);
    }
  }
}
