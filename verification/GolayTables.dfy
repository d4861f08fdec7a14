/** The tables of golay.c: golay23_init fills them, golay23_encode and golay23_decode look
    words up in them. */
module GolayTables {
  import opened Words
  import opened Golay
  import opened Combinations

  // ----- error patterns as sets of positions

  /** Sum of `1 << (position - 1)`. */
  function PatternOf(s: seq<int>): nat
    requires forall i | 0 <= i < |s| :: s[i] >= 1
  {
    if s == [] then 0 else PatternOf(s[..|s| - 1]) + Pow2(s[|s| - 1] - 1)
  }

  /** At most three wrong bits in a 23-bit word. */
  predicate IsCorrectable(e: nat) {
    e < Pow2(23) && Weight(e, 23) <= 3
  }

  lemma {:induction false} WeightTop(x: nat, k: nat)
    requires x < Pow2(k)
    ensures Weight(x, k + 1) == Weight(x, k)
    ensures Weight(x + Pow2(k), k + 1) == Weight(x, k) + 1
  {
    if k > 0 {
      WeightTop(x / 2, k - 1);
      assert (x + Pow2(k)) / 2 == x / 2 + Pow2(k - 1);
    }
  }

  lemma {:induction false} PatternBound(n: nat, s: seq<int>)
    requires IsComb(1, n, s)
    ensures PatternOf(s) < Pow2(n) && Weight(PatternOf(s), n) == |s|
    decreases n
  {
    if s == [] {
      WeightZero(0, n);
    } else {
      var p := s[|s| - 1];
      if p == n {
        PatternBound(n - 1, s[..|s| - 1]);
        WeightTop(PatternOf(s[..|s| - 1]), n - 1);
      } else {
        PatternBound(n - 1, s);
        WeightTop(PatternOf(s), n - 1);
      }
    }
  }

  /** Every word is the pattern of exactly one set of positions. */
  lemma {:induction false} PositionsOf(e: nat, n: nat) returns (s: seq<int>)
    requires e < Pow2(n)
    ensures IsComb(1, n, s) && PatternOf(s) == e && |s| == Weight(e, n)
    decreases n
  {
    if n == 0 {
      s := [];
    } else if e >= Pow2(n - 1) {
      var t := PositionsOf(e - Pow2(n - 1), n - 1);
      WeightTop(e - Pow2(n - 1), n - 1);
      s := t + [n];
      assert s[..|s| - 1] == t;
    } else {
      s := PositionsOf(e, n - 1);
      WeightTop(e, n - 1);
    }
  }

  lemma {:induction false} PatternInjective(n: nat, s: seq<int>, t: seq<int>)
    requires IsComb(1, n, s) && IsComb(1, n, t) && PatternOf(s) == PatternOf(t)
    ensures s == t
    decreases n
  {
    hide PatternOf, Pow2, Weight, IsComb;
    PositionsPositive(n, s);
    PositionsPositive(n, t);
    PatternBound(n, s);
    PatternBound(n, t);
    assert |s| == |t|;
    if s != [] {
      var k := |s| - 1;
      PatternTop(n, s);
      PatternTop(n, t);
      if PatternOf(s) >= Pow2(n - 1) {
        PatternInjective(n - 1, s[..k], t[..k]);
        assert s == s[..k] + [n] && t == t[..k] + [n];
      } else {
        PatternInjective(n - 1, s, t);
      }
    }
  }

  /** The topmost bit of a pattern says whether position n belongs to it. */
  lemma PatternTop(n: nat, s: seq<int>)
    requires IsComb(1, n, s) && s != []
    ensures n > 0
    ensures PatternOf(s) >= Pow2(n - 1) ==>
              s[|s| - 1] == n && IsComb(1, n - 1, s[..|s| - 1]) &&
              PatternOf(s) == PatternOf(s[..|s| - 1]) + Pow2(n - 1)
    ensures PatternOf(s) < Pow2(n - 1) ==> IsComb(1, n - 1, s)
  {
    if s[|s| - 1] != n {
      assert IsComb(1, n - 1, s);
      PatternBound(n - 1, s);
    }
  }

  /** The patterns of at most three positions are exactly the correctable words. */
  lemma CombCorrectable(s: seq<int>)
    requires IsComb(1, 23, s) && |s| <= 3
    ensures IsCorrectable(PatternOf(s))
  {
    PatternBound(23, s);
  }

  lemma SyndromeInjective(s: seq<int>, t: seq<int>)
    requires IsComb(1, 23, s) && IsComb(1, 23, t) && |s| <= 3 && |t| <= 3
    requires Syndrome(PatternOf(s)) == Syndrome(PatternOf(t))
    ensures s == t
  {
    CombCorrectable(s);
    CombCorrectable(t);
    CorrectablePatternsDiffer(PatternOf(s), PatternOf(t));
    PatternInjective(23, s, t);
  }

  // ----- perfect code: 1 + 23 + 253 + 1771 == 2048 patterns, 2048 syndromes

  lemma CombCounts()
    ensures Choose(23, 0) == 1 && Choose(23, 1) == 23 && Choose(23, 2) == 253 && Choose(23, 3) == 1771
    ensures Choose(23, 0) + Choose(23, 1) + Choose(23, 2) + Choose(23, 3) == 2048
  {
    hide Choose;
    ChooseZero(23);
    ChooseOne(23);
    ChooseTwo(23);
    ChooseThree(23);
  }

  lemma ChooseZero(n: nat)
    ensures Choose(n, 0) == 1
  {}

  lemma {:induction false} ChooseOne(n: nat)
    ensures Choose(n, 1) == n
  {
    if n > 0 {
      ChooseOne(n - 1);
    }
  }

  lemma {:induction false} ChooseTwo(n: nat)
    ensures 2 * Choose(n, 2) == n * (n - 1)
  {
    if n > 0 {
      ChooseTwo(n - 1);
      ChooseOne(n - 1);
    }
  }

  lemma ThreeFactors(p: int, n: int)
    ensures p == (n - 1) * (n - 2) ==> (n - 1) * (n - 2) * (n - 3) + 3 * p == n * (n - 1) * (n - 2)
  {
    assert p * (n - 3) + 3 * p == p * n;
    if p == (n - 1) * (n - 2) {
      assert n * (n - 1) * (n - 2) == p * n;
    }
  }

  lemma {:induction false} ChooseThree(n: nat)
    ensures 6 * Choose(n, 3) == n * (n - 1) * (n - 2)
  {
    if n > 0 {
      ChooseThree(n - 1);
      ChooseTwo(n - 1);
      ThreeFactors((n - 1) * (n - 2), n);
    }
  }

  /** Number of errors in, and rank of, the k-th pattern golay23_init generates. */
  function ErrorsAt(k: nat): nat {
    if k == 0 then 0 else if k < 24 then 1 else if k < 277 then 2 else 3
  }

  function RankAt(k: nat): nat {
    if k == 0 then 0 else if k < 24 then k - 1 else if k < 277 then k - 24 else k - 277
  }

  ghost predicate IsCombAt(k: nat, s: seq<int>) {
    IsComb(1, 23, s) && |s| == ErrorsAt(k) && Rank(1, 23, s) == RankAt(k)
  }

  /** The k-th error pattern, as a set of positions. */
  ghost function CombAt(k: nat): (s: seq<int>)
    requires k < 2048
    ensures IsCombAt(k, s)
  {
    CombExists(k);
    var s :| IsCombAt(k, s);
    s
  }

  lemma CombExists(k: nat)
    requires k < 2048
    ensures exists s :: IsCombAt(k, s)
  {
    hide Choose, IsComb, Rank;
    CombCounts();
    var s := Unrank(1, 23, ErrorsAt(k), RankAt(k));
    assert IsCombAt(k, s);
  }

  /** The k-th error pattern, as a word. */
  ghost function PatternAt(k: nat): (e: nat)
    requires k < 2048
    ensures IsCorrectable(e)
  {
    CombCorrectable(CombAt(k));
    PatternOf(CombAt(k))
  }

  lemma PatternsDistinct(j: nat, k: nat)
    requires j < k < 2048
    ensures Syndrome(PatternAt(j)) != Syndrome(PatternAt(k))
  {
    if Syndrome(PatternAt(j)) == Syndrome(PatternAt(k)) {
      SyndromeInjective(CombAt(j), CombAt(k));
    }
  }

  function Elements(f: seq<nat>): set<nat> {
    if f == [] then {} else Elements(f[..|f| - 1]) + {f[|f| - 1]}
  }

  function Below(n: nat): set<nat> {
    if n == 0 then {} else Below(n - 1) + {n - 1}
  }

  lemma {:induction false} ElementsOfDistinct(f: seq<nat>)
    requires forall i, j | 0 <= i < j < |f| :: f[i] != f[j]
    ensures |Elements(f)| == |f| && forall x :: x in Elements(f) <==> x in f
  {
    if f != [] {
      var g, last := f[..|f| - 1], f[|f| - 1];
      ElementsOfDistinct(g);
      assert forall x :: x in f <==> x in g || x == last;
      assert last !in g;
    }
  }

  lemma {:induction false} CountBelow(n: nat)
    ensures |Below(n)| == n && forall x: nat :: x in Below(n) <==> x < n
  {
    if n > 0 {
      CountBelow(n - 1);
    }
  }

  /** Pigeonhole: n different values below n are all the values below n. */
  lemma Pigeonhole(f: seq<nat>, v: nat)
    requires v < |f| && (forall i | 0 <= i < |f| :: f[i] < |f|)
    requires forall i, j | 0 <= i < j < |f| :: f[i] != f[j]
    ensures v in f
  {
    ElementsOfDistinct(f);
    CountBelow(|f|);
    var missing := Below(|f|) - Elements(f);
    assert Elements(f) <= Below(|f|);
    assert Below(|f|) == Elements(f) + missing;
    assert |missing| == 0;
    assert v in Below(|f|);
  }

  ghost function SyndromeList(n: nat): (f: seq<nat>)
    requires n <= 2048
    ensures |f| == n
    ensures forall k | 0 <= k < n :: f[k] == Syndrome(PatternAt(k))
  {
    if n == 0 then [] else SyndromeList(n - 1) + [Syndrome(PatternAt(n - 1))]
  }

  /** The code is perfect: every one of the 2048 syndromes belongs to a correctable pattern. */
  lemma PerfectCode(v: nat)
    requires v < 2048
    ensures exists e: nat :: IsCorrectable(e) && Syndrome(e) == v
  {
    EverySyndrome(2048, v);
  }

  lemma EverySyndrome(n: nat, v: nat)
    requires v < n == 2048
    ensures exists e: nat :: IsCorrectable(e) && Syndrome(e) == v
  {
    hide *;
    var f := SyndromeList(n);
    forall i | 0 <= i < |f|
      ensures f[i] < n
    {
      SyndromeBound(PatternAt(i));
    }
    forall i, j | 0 <= i < j < |f|
      ensures f[i] != f[j]
    {
      PatternsDistinct(i, j);
    }
    Pigeonhole(f, v);
    var k :| 0 <= k < |f| && f[k] == v;
    assert IsCorrectable(PatternAt(k));
  }

  lemma SyndromeBound(p: nat)
    ensures Syndrome(p) < 2048
  {}

  // ----- decoding

  /** The one correctable pattern with a given syndrome. */
  ghost function ErrorFor(v: nat): (e: nat)
    requires v < 2048
    ensures IsCorrectable(e) && Syndrome(e) == v
  {
    PerfectCode(v);
    var e: nat :| IsCorrectable(e) && Syndrome(e) == v;
    e
  }

  /** The codeword a received word is decoded to. */
  ghost function Nearest(w: nat): nat {
    Xor(w, ErrorFor(Syndrome(w)))
  }

  /** Decoding is total, and right whenever at most three bits are wrong. */
  lemma NearestCodeword(w: nat)
    requires w < Pow2(23)
    ensures IsCodeword(Nearest(w)) && Weight(Xor(w, Nearest(w)), 23) <= 3
    ensures forall c | IsCodeword(c) && Weight(Xor(w, c), 23) <= 3 :: c == Nearest(w)
  {
    var e := ErrorFor(Syndrome(w));
    XorBound(w, e, 23);
    SyndromeXor(w, e);
    XorSelf(Syndrome(w));
    SyndromeZero(Nearest(w));
    XorOut(w, e);
    forall c | IsCodeword(c) && Weight(Xor(w, c), 23) <= 3
      ensures c == Nearest(w)
    {
      SyndromeXor(w, c);
      SyndromeZero(c);
      XorZero(Syndrome(w));
      XorBound(w, c, 23);
      CorrectablePatternsDiffer(Xor(w, c), e);
      XorOut(w, c);
    }
  }

  lemma XorOut(x: nat, y: nat)
    ensures Xor(x, Xor(x, y)) == y
  {
    XorAssoc(x, x, y);
    XorSelf(x);
    XorZero(y);
  }

  // ----- filling the decoding table

  /** The table is right for every pattern of fewer than `r` errors, and for the first `i`
      patterns of `r` errors. */
  ghost predicate Covers(table: seq<nat>, r: nat, i: nat)
    requires |table| == 2048
  {
    forall s | IsComb(1, 23, s) && |s| <= r && (|s| < r || Rank(1, 23, s) < i) ::
      table[Syndrome(PatternOf(s))] == PatternOf(s)
  }

  lemma WriteCovers(table: seq<nat>, r: nat, i: nat, s: seq<int>)
    requires |table| == 2048 && r <= 3 && Covers(table, r, i)
    requires IsComb(1, 23, s) && |s| == r && Rank(1, 23, s) == i
    ensures Covers(table[Syndrome(PatternOf(s)) := PatternOf(s)], r, i + 1)
  {
    var next := table[Syndrome(PatternOf(s)) := PatternOf(s)];
    forall t | IsComb(1, 23, t) && |t| <= r && (|t| < r || Rank(1, 23, t) < i + 1)
      ensures next[Syndrome(PatternOf(t))] == PatternOf(t)
    {
      if Syndrome(PatternOf(t)) == Syndrome(PatternOf(s)) {
        SyndromeInjective(s, t);
      } else if |t| == r {
        RankOrder(1, 23, s, t);
      }
    }
  }

  lemma WeightDone(table: seq<nat>, r: nat, i: nat)
    requires |table| == 2048 && Covers(table, r, i) && i >= Choose(23, r)
    ensures Covers(table, r + 1, 0)
  {
    forall t | IsComb(1, 23, t) && |t| <= r
      ensures |t| == r ==> Rank(1, 23, t) < i
    {
      RankBound(1, 23, t);
    }
  }

  lemma {:induction false} RankSingle(lo: int, n: int, p: int)
    requires lo <= p <= n
    ensures IsComb(lo, n, [p]) && Rank(lo, n, [p]) == p - lo
    decreases p - lo
  {
    if lo < p {
      RankSingle(lo + 1, n, p);
    } else {
      assert [p][1..] == [];
    }
  }

  lemma SinglePattern(p: int)
    requires p >= 1
    ensures PatternOf([p]) == Pow2(p - 1)
  {
    assert [p][..0] == [];
  }

  lemma EveryEntry(table: seq<nat>, v: nat)
    requires |table| == 2048 && Covers(table, 4, 0) && v < 2048
    ensures table[v] == ErrorFor(v)
  {
    var e := ErrorFor(v);
    var s := PositionsOf(e, 23);
    assert table[Syndrome(PatternOf(s))] == PatternOf(s);
  }

  // ----- the tables

  /** arr2int: the word with ones at positions a[1], ..., a[r]. */
  method ArrToInt(a: array<int>, r: nat) returns (result: nat)
    requires r < a.Length && forall i | 1 <= i <= r :: a[i] >= 1
    ensures result == PatternOf(a[1..r + 1])
  {
    result := 0;
    var i := 1;
    while i <= r
      invariant 1 <= i <= r + 1
      invariant result == PatternOf(a[1..i])
    {
      var mul := 1;
      var temp := a[i] - 1;
      while temp > 0
        invariant 0 <= temp <= a[i] - 1 && mul == Pow2(a[i] - 1 - temp)
      {
        mul := 2 * mul;
        temp := temp - 1;
      }
      result := result + mul;
      assert a[1..i + 1] == a[1..i] + [a[i]];
      i := i + 1;
    }
  }

  class Golay23 {
    const encodingTable: array<nat>
    const decodingTable: array<nat>
    var inited: bool

    /** The shape the tables have from the start. */
    ghost predicate Allocated()
      reads this
    {
      encodingTable.Length == 4096 && decodingTable.Length == 2048 && encodingTable != decodingTable
    }

    /** After Init: every data word has its systematic codeword, every syndrome its one
        correctable error pattern. */
    ghost predicate Valid()
      reads this, encodingTable, decodingTable
    {
      && inited && Allocated()
      && (forall d | 0 <= d < 4096 :: encodingTable[d] == Shl(d, 11) + Syndrome(Shl(d, 11)))
      && (forall v | 0 <= v < 2048 :: decodingTable[v] == ErrorFor(v))
    }

    /** A byte buffer that is none of the tables. */
    ghost predicate Apart(buffer: array<bv8>) {
      buffer as object != encodingTable && buffer as object != decodingTable && buffer as object != this
    }

    constructor ()
      ensures Allocated() && !inited && fresh(encodingTable) && fresh(decodingTable)
    {
      encodingTable := new nat[4096];
      decodingTable := new nat[2048];
      inited := false;
    }

    method FillEncodingTable()
      requires Allocated()
      modifies encodingTable
      ensures forall d | 0 <= d < 4096 :: encodingTable[d] == Shl(d, 11) + Syndrome(Shl(d, 11))
    {
      assert Pow2(11) == 2048 && Pow2(23) == 0x80_0000;
      for pattern := 0 to 4096
        invariant forall d | 0 <= d < pattern :: encodingTable[d] == Shl(d, 11) + Syndrome(Shl(d, 11))
      {
        var temp := Shl(pattern, 11);
        ShlPow2(pattern, 11);
        var syndrome := GetSyndrome(temp);
        encodingTable[pattern] := temp + syndrome;
      }
    }

    /** Store one error pattern at its syndrome. */
    method Store(temp: nat, ghost r: nat, ghost i: nat, ghost s: seq<int>)
      requires Allocated() && r <= 3 && Covers(decodingTable[..], r, i)
      requires IsComb(1, 23, s) && |s| == r && Rank(1, 23, s) == i && temp == PatternOf(s)
      modifies decodingTable
      ensures Covers(decodingTable[..], r, i + 1)
    {
      CombCorrectable(s);
      WriteCovers(decodingTable[..], r, i, s);
      var syndrome := GetSyndrome(temp);
      ghost var before := decodingTable[..];
      decodingTable[syndrome] := temp;
      assert decodingTable[..] == before[syndrome := temp];
    }

    /** Single errors: entries 0 and 1 outright, then each power of two in turn. */
    method FillSingle()
      requires Allocated()
      modifies decodingTable
      ensures Covers(decodingTable[..], 2, 0)
    {
      decodingTable[0] := 0;
      decodingTable[1] := 1;
      var temp := 1;
      FirstEntries(decodingTable[..]);
      for i := 2 to 24
        invariant temp == Pow2(i - 2)
        invariant Covers(decodingTable[..], 1, i - 1)
      {
        temp := temp * 2;
        RankSingle(1, 23, i);
        SinglePattern(i);
        Store(temp, 1, i - 1, [i]);
      }
      CombCounts();
      WeightDone(decodingTable[..], 1, 23);
    }

    /** Double and triple errors: all r-element sets of positions, by nextcomb. */
    method FillMultiple(a: array<int>, r: nat, count: nat)
      requires Allocated() && a.Length == 4 && 2 <= r <= 3 && count == Choose(23, r)
      requires a[1..r + 1] == First(1, r) && Covers(decodingTable[..], r, 0)
      modifies a, decodingTable
      ensures Covers(decodingTable[..], r + 1, 0)
    {
      hide Covers, Choose, Rank, Less, PatternOf;
      FirstRank(1, 23, r);
      RankBound(1, 23, a[1..r + 1]);
      PositionsPositive(23, a[1..r + 1]);
      var temp := ArrToInt(a, r);
      Store(temp, r, 0, a[1..r + 1]);
      for i := 1 to count
        invariant IsComb(1, 23, a[1..r + 1]) && Rank(1, 23, a[1..r + 1]) == i - 1
        invariant Covers(decodingTable[..], r, i)
      {
        LastRank(1, 23, r);
        ghost var s := a[1..r + 1];
        NextComb(23, r, a);
        SuccessorByRank(23, s, a[1..r + 1]);
        PositionsPositive(23, a[1..r + 1]);
        temp := ArrToInt(a, r);
        Store(temp, r, i, a[1..r + 1]);
      }
      WeightDone(decodingTable[..], r, count);
    }

    /** golay23_init */
    method Init()
      requires Allocated()
      modifies this, encodingTable, decodingTable
      ensures Valid()
    {
      hide Covers, Choose;
      var a := new int[4];
      FillEncodingTable();
      FillSingle();
      CombCounts();
      a[1], a[2] := 1, 2;
      assert a[1..3] == First(1, 2);
      FillMultiple(a, 2, 253);
      a[1], a[2], a[3] := 1, 2, 3;
      assert a[1..4] == First(1, 3);
      FillMultiple(a, 3, 1771);
      forall v | 0 <= v < 2048
        ensures decodingTable[v] == ErrorFor(v)
      {
        EveryEntry(decodingTable[..], v);
      }
      inited := true;
    }

    /** golay23_encode: the systematic codeword of twelve data bits. */
    method Encode(data: nat) returns (codeword: nat)
      requires Valid() && data <= 0xfff
      ensures IsCodeword(codeword) && Shr(codeword, 11) == data
      ensures forall c | IsCodeword(c) && Shr(c, 11) == data :: c == codeword
    {
      codeword := encodingTable[data];
      SystematicCodeword(Shl(data, 11), data);
      forall c | IsCodeword(c) && Shr(c, 11) == data
        ensures c == codeword
      {
        CodewordSystematic(c);
      }
    }

    /** golay23_decode: the only codeword within distance three (all 23 bits of it). */
    method Decode(received: nat) returns (codeword: nat)
      requires Valid() && received < Pow2(23)
      ensures codeword == Nearest(received)
      ensures IsCodeword(codeword) && Weight(Xor(received, codeword), 23) <= 3
      ensures forall c | IsCodeword(c) && Weight(Xor(received, c), 23) <= 3 :: c == codeword
    {
      var syndrome := GetSyndrome(received);
      codeword := Xor(received, decodingTable[syndrome]);
      NearestCodeword(received);
    }
  }

  lemma PositionsPositive(n: int, s: seq<int>)
    requires IsComb(1, n, s)
    ensures forall i | 0 <= i < |s| :: s[i] >= 1
  {}

  lemma FirstEntries(table: seq<nat>)
    requires |table| == 2048 && table[0] == 0 && table[1] == 1
    ensures Covers(table, 1, 1)
  {
    RemainderSmall(0);
    SyndromeIs(0, 0);
    RemainderSmall(1);
    SyndromeIs(1, 1);
    forall s | IsComb(1, 23, s) && |s| <= 1 && (|s| < 1 || Rank(1, 23, s) < 1)
      ensures table[Syndrome(PatternOf(s))] == PatternOf(s)
    {
      if |s| == 1 {
        assert s == [s[0]];
        RankSingle(1, 23, s[0]);
        SinglePattern(1);
      }
    }
  }
}
