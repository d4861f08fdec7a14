/** Syndromes of the (23, 12) Golay code: division of polynomials over GF(2) by GENPOL.
    Mirrors `get_syndrome` of golay.c; words are polynomials, bit `i` being the
    coefficient of x^i. */
module Golay {
  import opened Words

  const X22 := 0x0040_0000
  const X11 := 0x0000_0800
  const MASK12 := 0xffff_f800
  const GENPOL := 0x0000_0c75

  /** Product of two polynomials over GF(2). */
  function Times(q: nat, g: nat): nat {
    if q == 0 then 0 else Xor(if q % 2 == 1 then g else 0, 2 * Times(q / 2, g))
  }

  /** `r` is what is left of `p` after division by GENPOL. */
  ghost predicate IsRemainder(p: nat, r: nat) {
    r < X11 && exists q: nat :: Xor(p, r) == Times(q, GENPOL)
  }

  /** The remainder of `p` modulo GENPOL; RemainderUnique shows that there is only one. */
  ghost function Syndrome(p: nat): (r: nat)
    ensures IsRemainder(p, r)
  {
    RemainderExists(p);
    var r: nat :| IsRemainder(p, r);
    r
  }

  /** Multiples of the generator polynomial that fit in 23 bits. */
  ghost predicate IsCodeword(c: nat) {
    c < Pow2(23) && exists q: nat :: c == Times(q, GENPOL)
  }

  // ----- polynomial arithmetic

  lemma {:induction false} TimesXor(a: nat, b: nat, g: nat)
    ensures Times(Xor(a, b), g) == Xor(Times(a, g), Times(b, g))
    decreases a + b
  {
    XorZero(Times(a, g));
    XorZero(Times(b, g));
    XorZero(a);
    XorZero(b);
    if a != 0 && b != 0 {
      XorStep(a, b);
      TimesXor(a / 2, b / 2, g);
      var x, y := if a % 2 == 1 then g else 0, if b % 2 == 1 then g else 0;
      var s, t := Times(a / 2, g), Times(b / 2, g);
      XorDouble(s, t);
      XorSwap(x, 2 * s, y, 2 * t);
      XorSelf(g);
      XorZero(g);
      assert Xor(Times(a, g), Times(b, g)) == Xor(Xor(x, y), 2 * Xor(s, t));
      if Xor(a, b) == 0 {
        XorCancel(a, b);
        XorSelf(Times(a, g));
      }
    }
  }

  lemma TimesStep(q: nat, g: nat)
    ensures q > 0 ==> Times(q, g) == Xor(if q % 2 == 1 then g else 0, 2 * Times(q / 2, g))
    ensures Times(0, g) == 0
  {}

  lemma TimesDouble(q: nat, g: nat)
    ensures Times(2 * q, g) == 2 * Times(q, g)
  {
    hide Xor;
    XorZero(2 * Times(q, g));
    assert 2 * q / 2 == q;
  }

  lemma {:induction false} TimesPow2(k: nat, g: nat)
    ensures Times(Pow2(k), g) == Pow2(k) * g
  {
    hide Times, Xor;
    if k > 0 {
      TimesPow2(k - 1, g);
      TimesDouble(Pow2(k - 1), g);
      assert Pow2(k) * g == 2 * (Pow2(k - 1) * g);
    } else {
      TimesStep(1, g);
      TimesStep(0, g);
      XorZero(g);
    }
  }

  lemma PowersUsed()
    ensures Pow2(11) == X11 && Pow2(12) == 2 * X11 && Pow2(22) == X22 && Pow2(23) == 2 * X22
  {}

  /** Multiplying by GENPOL raises the degree by exactly 11. */
  lemma {:induction false} TimesDegree(q: nat, n: nat)
    requires q < Pow2(n)
    ensures Times(q, GENPOL) < Pow2(n + 11)
    ensures q > 0 ==> Times(q, GENPOL) >= X11
  {
    hide Times, Xor, Shr;
    TimesStep(q, GENPOL);
    if q > 0 {
      var c, low := Times(q / 2, GENPOL), if q % 2 == 1 then GENPOL else 0;
      TimesDegree(q / 2, n - 1);
      PowersUsed();
      Pow2Mono(12, n + 11);
      XorBound(low, 2 * c, n + 11);
      if q > 1 {
        ShrXor(low, 2 * c, 12);
        ShrZero(low, 12);
        ShrZero(2 * c, 12);
        XorZero(Shr(2 * c, 12));
        ShrZero(Times(q, GENPOL), 12);
      } else {
        TimesStep(0, GENPOL);
        XorZero(GENPOL);
      }
    }
  }

  lemma {:induction false} TimesDegreeBack(q: nat, n: nat)
    requires Times(q, GENPOL) < Pow2(n + 11)
    ensures q < Pow2(n)
  {
    hide Times, Xor;
    if q > 0 {
      var c, low := Times(q / 2, GENPOL), if q % 2 == 1 then GENPOL else 0;
      TimesStep(q, GENPOL);
      PowersUsed();
      if n == 0 {
        Pow2Above(q);
        TimesDegree(q, q);
      } else {
        Pow2Mono(12, n + 11);
        XorBound(low, Times(q, GENPOL), n + 11);
        XorComm(low, 2 * c);
        XorCancel(2 * c, low);
        XorComm(low, Times(q, GENPOL));
        assert 2 * c < Pow2(n + 11);
        TimesDegreeBack(q / 2, n - 1);
      }
    }
  }

  lemma {:induction false} Pow2Above(n: nat)
    ensures n < Pow2(n)
  {
    if n > 0 {
      Pow2Above(n - 1);
    }
  }

  // ----- remainders

  lemma Subtract(p: nat, t: nat, u: nat, r: nat)
    requires Xor(Xor(p, t), r) == u
    ensures Xor(p, r) == Xor(u, t)
  {
    XorAssoc(p, t, r);
    XorComm(t, r);
    XorAssoc(p, r, t);
    XorCancel(Xor(p, r), t);
  }

  /** Adding a multiple of GENPOL does not change the remainder. */
  lemma RemainderStep(p: nat, q: nat, r: nat)
    requires IsRemainder(Xor(p, Times(q, GENPOL)), r)
    ensures IsRemainder(p, r)
  {
    var u: nat :| Xor(Xor(p, Times(q, GENPOL)), r) == Times(u, GENPOL);
    Subtract(p, Times(q, GENPOL), Times(u, GENPOL), r);
    TimesXor(u, q, GENPOL);
    assert Xor(p, r) == Times(Xor(u, q), GENPOL);
  }

  lemma RemainderSmall(p: nat)
    requires p < X11
    ensures IsRemainder(p, p)
  {
    XorSelf(p);
    assert Xor(p, p) == Times(0, GENPOL);
  }

  /** Cancelling the top coefficient of `p` with a shifted generator. */
  lemma CancelTop(p: nat, k: nat)
    requires k >= 11 && Pow2(k) <= p < Pow2(k + 1)
    ensures Pow2(k) / X11 == Pow2(k - 11)
    ensures Times(Pow2(k - 11), GENPOL) == Pow2(k - 11) * GENPOL
    ensures Xor(p, Pow2(k - 11) * GENPOL) < Pow2(k)
  {
    hide Pow2, Xor, Times, Bit;
    var s := Pow2(k - 11) * GENPOL;
    PowersUsed();
    Pow2Sum(k - 11, 11);
    Pow2Sum(k - 11, 12);
    TimesPow2(k - 11, GENPOL);
    XorBound(p, s, k + 1);
    BitTop(p, k);
    BitTop(s, k);
    BitXor(p, s, k);
    BitTop(Xor(p, s), k);
  }

  lemma {:induction false} Pow2Sum(m: nat, n: nat)
    ensures Pow2(m + n) == Pow2(m) * Pow2(n)
  {
    if n > 0 {
      Pow2Sum(m, n - 1);
      assert Pow2(m + n) == 2 * Pow2(m + n - 1);
    }
  }

  lemma {:induction false} RemainderExistsBelow(p: nat, n: nat)
    requires p < Pow2(n)
    ensures exists r: nat :: IsRemainder(p, r)
    decreases n
  {
    if p < X11 {
      RemainderSmall(p);
    } else {
      assert Pow2(11) == X11;
      if n <= 11 {
        Pow2Mono(n, 11);
      }
      if p < Pow2(n - 1) {
        RemainderExistsBelow(p, n - 1);
      } else {
        CancelTop(p, n - 1);
        var s := Times(Pow2(n - 12), GENPOL);
        RemainderExistsBelow(Xor(p, s), n - 1);
        var r: nat :| IsRemainder(Xor(p, s), r);
        RemainderStep(p, Pow2(n - 12), r);
      }
    }
  }

  lemma RemainderExists(p: nat)
    ensures exists r: nat :: IsRemainder(p, r)
  {
    Pow2Above(p);
    RemainderExistsBelow(p, p);
  }

  /** Division with remainder by GENPOL leaves one remainder only. */
  lemma RemainderUnique(p: nat, r: nat, s: nat)
    requires IsRemainder(p, r) && IsRemainder(p, s)
    ensures r == s
  {
    var u: nat :| Xor(p, r) == Times(u, GENPOL);
    var v: nat :| Xor(p, s) == Times(v, GENPOL);
    TimesXor(u, v, GENPOL);
    XorSwap(p, r, p, s);
    XorSelf(p);
    XorZero(Xor(r, s));
    assert Xor(r, s) == Times(Xor(u, v), GENPOL);
    assert Pow2(11) == X11;
    XorBound(r, s, 11);
    Pow2Above(Xor(u, v));
    TimesDegree(Xor(u, v), Xor(u, v));
    XorCancel(r, s);
  }

  lemma SyndromeIs(p: nat, r: nat)
    requires IsRemainder(p, r)
    ensures Syndrome(p) == r
  {
    RemainderUnique(p, r, Syndrome(p));
  }

  /** The syndrome is linear. */
  lemma SyndromeXor(p: nat, p': nat)
    ensures Syndrome(Xor(p, p')) == Xor(Syndrome(p), Syndrome(p'))
  {
    var r, s := Syndrome(p), Syndrome(p');
    var u: nat :| Xor(p, r) == Times(u, GENPOL);
    var v: nat :| Xor(p', s) == Times(v, GENPOL);
    XorSwap(p, r, p', s);
    XorSwap(p, p', r, s);
    TimesXor(u, v, GENPOL);
    assert Xor(Xor(p, p'), Xor(r, s)) == Times(Xor(u, v), GENPOL);
    assert Pow2(11) == X11;
    XorBound(r, s, 11);
    SyndromeIs(Xor(p, p'), Xor(r, s));
  }

  /** The syndrome vanishes exactly on the code. */
  lemma SyndromeZero(p: nat)
    requires p < Pow2(23)
    ensures Syndrome(p) == 0 <==> IsCodeword(p)
  {
    XorZero(p);
    if IsCodeword(p) {
      assert IsRemainder(p, 0);
      SyndromeIs(p, 0);
    }
  }

  lemma CodewordXor(c: nat, d: nat)
    requires IsCodeword(c) && IsCodeword(d)
    ensures IsCodeword(Xor(c, d))
  {
    XorBound(c, d, 23);
    SyndromeZero(c);
    SyndromeZero(d);
    SyndromeZero(Xor(c, d));
    SyndromeXor(c, d);
  }

  /** Systematic encoding: data bits shifted up, their syndrome in the 11 free positions. */
  lemma SystematicCodeword(p: nat, d: nat)
    requires p == Shl(d, 11) && d < 4096
    ensures p + Syndrome(p) == Xor(p, Syndrome(p)) < Pow2(23)
    ensures IsCodeword(p + Syndrome(p))
    ensures Shr(p + Syndrome(p), 11) == d
  {
    assert Pow2(11) == X11 && Pow2(23) == 0x80_0000;
    JoinLow(d, Syndrome(p), 11);
    ShlPow2(d, 11);
    ShrShl(d, Syndrome(p), 11);
  }

  /** Every codeword is the systematic encoding of its top twelve bits. */
  lemma CodewordSystematic(c: nat)
    requires IsCodeword(c)
    ensures Shr(c, 11) < 4096 && c == Shl(Shr(c, 11), 11) + Syndrome(Shl(Shr(c, 11), 11))
  {
    var d := Shr(c, 11);
    assert Pow2(11) == X11 && Pow2(23) == 0x80_0000;
    SplitLow(c, 11);
    var low := c - Shl(d, 11);
    ShlPow2(d, 11);
    JoinLow(d, low, 11);
    XorComm(Shl(d, 11), low);
    var q: nat :| c == Times(q, GENPOL);
    assert IsRemainder(Shl(d, 11), low);
    SyndromeIs(Shl(d, 11), low);
  }

  lemma {:induction false} SplitLow(c: nat, k: nat)
    ensures Shl(Shr(c, k), k) <= c < Shl(Shr(c, k), k) + Pow2(k)
  {
    if k > 0 {
      SplitLow(c / 2, k - 1);
    }
  }

  // ----- minimum distance

  /** Coefficient of x^j in GENPOL. */
  predicate G(j: int) {
    j == 0 || j == 2 || j == 4 || j == 5 || j == 6 || j == 10 || j == 11
  }

  lemma GenpolBits(k: nat)
    ensures Bit(GENPOL, k) == G(k)
  {
    if k < 12 {
      assert Bit(0xc75, 0) && !Bit(0xc75, 1) && Bit(0xc75, 2) && !Bit(0xc75, 3);
      assert Bit(0xc75, 4) && Bit(0xc75, 5) && Bit(0xc75, 6) && !Bit(0xc75, 7);
      assert !Bit(0xc75, 8) && !Bit(0xc75, 9) && Bit(0xc75, 10) && Bit(0xc75, 11);
    } else {
      assert Pow2(12) == 4096;
      BitBelow(GENPOL, 12, k);
    }
  }

  /** Coefficient of x^i, for any i. */
  predicate At(q: nat, i: int) {
    i >= 0 && Bit(q, i)
  }

  /** Coefficient of x^k in the product of GENPOL and `q`. */
  predicate Taps(q: nat, k: int) {
    ((At(q, k) != At(q, k - 2)) != (At(q, k - 4) != At(q, k - 5))) !=
    ((At(q, k - 6) != At(q, k - 10)) != At(q, k - 11))
  }

  lemma AtHalf(q: nat, i: int)
    ensures At(q, i) == ((q % 2 == 1 && i == 0) != At(q / 2, i - 1))
  {}

  lemma TapsHalf(q: nat, k: int)
    ensures Taps(q, k) == ((q % 2 == 1 && G(k)) != Taps(q / 2, k - 1))
  {
    hide At;
    AtHalf(q, k);
    AtHalf(q, k - 2);
    AtHalf(q, k - 4);
    AtHalf(q, k - 5);
    AtHalf(q, k - 6);
    AtHalf(q, k - 10);
    AtHalf(q, k - 11);
  }

  lemma AtZero(i: int)
    ensures !At(0, i)
  {
    if i >= 0 {
      BitBelow(0, 0, i);
    }
  }

  lemma AtXor(x: nat, y: nat, k: nat)
    ensures At(Xor(x, y), k) == (At(x, k) != At(y, k))
  {
    BitXor(x, y, k);
  }

  lemma AtLow(odd: bool, k: nat)
    ensures At(if odd then GENPOL else 0, k) == (odd && G(k))
  {
    GenpolBits(k);
    AtZero(k);
  }

  lemma TimesHalf(q: nat, k: nat)
    ensures At(Times(q, GENPOL), k) == ((q % 2 == 1 && G(k)) != At(Times(q / 2, GENPOL), k - 1))
  {
    hide Times, Xor, G, At;
    var low, c := if q % 2 == 1 then GENPOL else 0, Times(q / 2, GENPOL);
    TimesStep(q, GENPOL);
    TimesStep(0, GENPOL);
    AtZero(k);
    AtZero(k - 1);
    AtLow(q % 2 == 1, k);
    AtXor(low, 2 * c, k);
    AtHalf(2 * c, k);
  }

  lemma {:induction false} ProductBit(q: nat, k: int)
    ensures At(Times(q, GENPOL), k) == Taps(q, k)
    decreases q, k
  {
    hide At, Times, Taps, G;
    if k < 0 {
      NothingBelow(q, k);
    } else if q == 0 {
      TimesStep(0, GENPOL);
      AtZero(k);
      NoTaps(k);
    } else {
      TimesHalf(q, k);
      TapsHalf(q, k);
      ProductBit(q / 2, k - 1);
    }
  }

  lemma NothingBelow(q: nat, k: int)
    requires k < 0
    ensures !At(Times(q, GENPOL), k) && !Taps(q, k)
  {}

  lemma NoTaps(k: int)
    ensures !Taps(0, k)
  {
    hide At;
    AtZero(k);
    AtZero(k - 2);
    AtZero(k - 4);
    AtZero(k - 5);
    AtZero(k - 6);
    AtZero(k - 10);
    AtZero(k - 11);
  }

  /** The polynomial q0 + q1 x + ... + q11 x^11. */
  datatype Quotient = Quotient(q0: bool, q1: bool, q2: bool, q3: bool, q4: bool, q5: bool,
                               q6: bool, q7: bool, q8: bool, q9: bool, q10: bool, q11: bool)

  function QuotientOf(q: nat): Quotient {
    Quotient(At(q, 0), At(q, 1), At(q, 2), At(q, 3), At(q, 4), At(q, 5),
             At(q, 6), At(q, 7), At(q, 8), At(q, 9), At(q, 10), At(q, 11))
  }

  // The weight of the product of GENPOL with such a polynomial: all 23 coefficients written out.

  function LowWeight(q: Quotient): nat {
    B(q.q0) +
    B(q.q1) +
    B(q.q2 != q.q0) +
    B(q.q3 != q.q1) +
    B((q.q4 != q.q2) != q.q0) +
    B((q.q5 != q.q3) != (q.q1 != q.q0)) +
    B(((q.q6 != q.q4) != (q.q2 != q.q1)) != q.q0) +
    B(((q.q7 != q.q5) != (q.q3 != q.q2)) != q.q1)
  }

  function MiddleWeight(q: Quotient): nat {
    B(((q.q8 != q.q6) != (q.q4 != q.q3)) != q.q2) +
    B(((q.q9 != q.q7) != (q.q5 != q.q4)) != q.q3)
  }

  function CentreWeight(q: Quotient): nat {
    B(((q.q10 != q.q8) != (q.q6 != q.q5)) != (q.q4 != q.q0)) +
    B(((q.q11 != q.q9) != (q.q7 != q.q6)) != ((q.q5 != q.q1) != q.q0))
  }

  function UpperWeight(q: Quotient): nat {
    B((q.q10 != (q.q8 != q.q7)) != ((q.q6 != q.q2) != q.q1)) +
    B((q.q11 != (q.q9 != q.q8)) != ((q.q7 != q.q3) != q.q2)) +
    B((q.q10 != q.q9) != ((q.q8 != q.q4) != q.q3)) +
    B((q.q11 != q.q10) != ((q.q9 != q.q5) != q.q4))
  }

  function HighWeight(q: Quotient): nat {
    B(q.q11 != ((q.q10 != q.q6) != q.q5)) +
    B((q.q11 != q.q7) != q.q6) +
    B(q.q8 != q.q7) +
    B(q.q9 != q.q8) +
    B(q.q10 != q.q9) +
    B(q.q11 != q.q10) +
    B(q.q11)
  }

  function ProductWeight(q: Quotient): nat {
    LowWeight(q) + MiddleWeight(q) + CentreWeight(q) + UpperWeight(q) + HighWeight(q)
  }

  // Every nonzero product has at least seven nonzero coefficients; one lemma for each
  // value of the leading coefficient of q.

  lemma ProductWeightMonic(q: Quotient)
    requires q.q11
    ensures ProductWeight(q) >= 7
  {}

  lemma ProductWeightLower(q: Quotient)
    requires !q.q11
    requires q.q0 || q.q1 || q.q2 || q.q3 || q.q4 || q.q5 || q.q6 || q.q7 || q.q8 || q.q9 || q.q10
    ensures ProductWeight(q) >= 7
  {}

  lemma {:induction false} WeightSum(x: nat, n: nat)
    requires n > 0
    ensures Weight(x, n) == Weight(x, n - 1) + B(Bit(x, n - 1))
  {
    if n > 1 {
      WeightSum(x / 2, n - 1);
    }
  }

  lemma NoWeight(c: nat)
    ensures Weight(c, 0) == 0
  {}

  lemma NothingAbove(q: nat)
    requires q < 4096
    ensures forall i | i < 0 || 12 <= i :: !At(q, i)
  {
    forall i: int | 12 <= i
      ensures !At(q, i)
    {
      PowersUsed();
      BitBelow(q, 12, i);
    }
  }

  lemma CountBit(q: nat, k: nat)
    ensures var c := Times(q, GENPOL); Weight(c, k + 1) == Weight(c, k) + B(Taps(q, k))
  {
    ProductBit(q, k);
    hide Times, Taps;
    WeightSum(Times(q, GENPOL), k + 1);
  }

  lemma CountLow(q: nat)
    requires q < 4096
    ensures var c := Times(q, GENPOL); Weight(c, 8) == LowWeight(QuotientOf(q))
  {
    hide At, Weight, Times;
    var c := Times(q, GENPOL);
    NothingAbove(q);
    assert Weight(c, 0) == 0 by {
      NoWeight(c);
    }
    CountBit(q, 0);
    CountBit(q, 1);
    CountBit(q, 2);
    CountBit(q, 3);
    CountBit(q, 4);
    CountBit(q, 5);
    CountBit(q, 6);
    CountBit(q, 7);
  }

  lemma CountMiddle(q: nat)
    requires q < 4096
    ensures var c := Times(q, GENPOL); Weight(c, 10) == Weight(c, 8) + MiddleWeight(QuotientOf(q))
  {
    hide At, Weight, Times;
    var c := Times(q, GENPOL);
    NothingAbove(q);
    CountBit(q, 8);
    CountBit(q, 9);
  }

  lemma CountCentre(q: nat)
    requires q < 4096
    ensures var c := Times(q, GENPOL); Weight(c, 12) == Weight(c, 10) + CentreWeight(QuotientOf(q))
  {
    hide At, Weight, Times;
    var c := Times(q, GENPOL);
    NothingAbove(q);
    CountBit(q, 10);
    CountBit(q, 11);
  }

  lemma CountUpper(q: nat)
    requires q < 4096
    ensures var c := Times(q, GENPOL); Weight(c, 16) == Weight(c, 12) + UpperWeight(QuotientOf(q))
  {
    hide At, Weight, Times;
    var c := Times(q, GENPOL);
    NothingAbove(q);
    CountBit(q, 12);
    CountBit(q, 13);
    CountBit(q, 14);
    CountBit(q, 15);
  }

  lemma CountHigh(q: nat)
    requires q < 4096
    ensures var c := Times(q, GENPOL); Weight(c, 23) == Weight(c, 16) + HighWeight(QuotientOf(q))
  {
    hide At, Weight, Times;
    var c := Times(q, GENPOL);
    NothingAbove(q);
    CountBit(q, 16);
    CountBit(q, 17);
    CountBit(q, 18);
    CountBit(q, 19);
    CountBit(q, 20);
    CountBit(q, 21);
    CountBit(q, 22);
  }

  /** The generator is x^11 + x^10 + x^6 + x^5 + x^4 + x^2 + 1, so x^11 leaves the remainder 0x475. */
  lemma GeneratorRemainder()
    ensures IsCodeword(0xc75) && Syndrome(0x800) == 0x475
  {
    TimesStep(1, GENPOL);
    TimesStep(0, GENPOL);
    XorZero(GENPOL);
    PowersUsed();
    SplitGenerator();
    assert Xor(0x800, 0x475) == Times(1, GENPOL);
    assert IsRemainder(0x800, 0x475);
    SyndromeIs(0x800, 0x475);
  }

  lemma SplitGenerator()
    ensures Xor(0x800, 0x475) == 0xc75
  {
    hide Xor;
    XorStep(0x800, 0x475);
    XorStep(0x400, 0x23a);
    XorStep(0x200, 0x11d);
    XorStep(0x100, 0x8e);
    XorStep(0x80, 0x47);
    XorStep(0x40, 0x23);
    XorStep(0x20, 0x11);
    XorStep(0x10, 0x8);
    XorStep(0x8, 0x4);
    XorStep(0x4, 0x2);
    XorStep(0x2, 0x1);
    XorZero(1);
  }

  /** Minimum distance 7: no nonzero codeword has fewer than seven ones. */
  lemma CodewordWeight(c: nat)
    requires IsCodeword(c) && c != 0
    ensures Weight(c, 23) >= 7
  {
    var q: nat :| c == Times(q, GENPOL);
    assert Pow2(12) == 4096;
    TimesDegreeBack(q, 12);
    hide Times, LowWeight, MiddleWeight, CentreWeight, UpperWeight, HighWeight, QuotientOf, Weight;
    CountLow(q);
    CountMiddle(q);
    CountCentre(q);
    CountUpper(q);
    CountHigh(q);
    QuotientNonzero(q);
  }

  lemma QuotientNonzero(q: nat)
    requires 0 < q < 4096
    ensures ProductWeight(QuotientOf(q)) >= 7
  {
    PowersUsed();
    SomeBit(q, 12);
    hide ProductWeight, At;
    if At(q, 11) {
      ProductWeightMonic(QuotientOf(q));
    } else {
      ProductWeightLower(QuotientOf(q));
    }
  }

  lemma {:induction false} SomeBit(q: nat, n: nat)
    requires 0 < q < Pow2(n)
    ensures exists i | 0 <= i < n :: At(q, i)
  {
    if q % 2 == 1 {
      assert At(q, 0);
    } else {
      SomeBit(q / 2, n - 1);
      var i :| 0 <= i < n - 1 && At(q / 2, i);
      AtHalf(q, i + 1);
    }
  }

  /** Two error patterns of at most three errors with the same syndrome are the same pattern. */
  lemma CorrectablePatternsDiffer(e: nat, f: nat)
    requires e < Pow2(23) && f < Pow2(23) && Weight(e, 23) <= 3 && Weight(f, 23) <= 3
    requires Syndrome(e) == Syndrome(f)
    ensures e == f
  {
    SyndromeXor(e, f);
    XorSelf(Syndrome(e));
    XorBound(e, f, 23);
    SyndromeZero(Xor(e, f));
    WeightXor(e, f, 23);
    if Xor(e, f) != 0 {
      CodewordWeight(Xor(e, f));
    }
    XorCancel(e, f);
  }

  // ----- get_syndrome

  lemma {:induction false} AndHighBits(p: nat, n: nat, m: nat)
    requires n <= m && p < Pow2(m)
    ensures Pow2(m) >= Pow2(n)
    ensures And(p, Pow2(m) - Pow2(n)) != 0 <==> p >= Pow2(n)
  {
    Pow2Mono(n, m);
    if n > 0 {
      AndHighBits(p / 2, n - 1, m - 1);
    } else if m > 0 {
      AndHighBits(p / 2, 0, m - 1);
    }
  }

  /** The loop guard of get_syndrome: some bit at or above X11 is set. */
  lemma MaskedBits(p: nat)
    requires p < Pow2(23)
    ensures And(p, MASK12) != 0 <==> p >= X11
  {
    assert Pow2(11) == 2048 && Pow2(32) == 0x1_0000_0000;
    Pow2Mono(23, 32);
    AndHighBits(p, 11, 32);
  }

  /** One division step leaves the remainder alone and lowers the degree. */
  lemma DivisionStep(p: nat, k: nat, received: nat)
    requires 11 <= k <= 22 && p < Pow2(k + 1)
    requires And(Pow2(k), p) != 0
    requires Syndrome(p) == Syndrome(received)
    ensures Xor(p, Pow2(k) / X11 * GENPOL) < Pow2(k) <= p
    ensures Syndrome(Xor(p, Pow2(k) / X11 * GENPOL)) == Syndrome(received)
  {
    AndPow2(p, k);
    BitTop(p, k);
    CancelTop(p, k);
    RemainderStep(p, Pow2(k - 11), Syndrome(Xor(p, Times(Pow2(k - 11), GENPOL))));
    SyndromeIs(p, Syndrome(Xor(p, Times(Pow2(k - 11), GENPOL))));
  }

  lemma HalfPow2()
    ensures forall k: nat | k > 0 :: Pow2(k) / 2 == Pow2(k - 1)
  {}

  /** Long division of a 23-bit word by GENPOL: terminates, and leaves the remainder. */
  method GetSyndrome(received: nat) returns (pattern: nat)
    requires received < Pow2(23)
    ensures pattern == Syndrome(received)
  {
    var aux := X22;
    ghost var k := 22;
    pattern := received;
    PowersUsed();
    HalfPow2();
    hide Pow2, Xor, And, Bit;
    if pattern >= X11 {
      MaskedBits(pattern);
      while And(pattern, MASK12) != 0
        invariant 11 <= k <= 22 && aux == Pow2(k) && pattern < Pow2(k + 1) <= Pow2(23)
        invariant And(pattern, MASK12) != 0 <==> pattern >= X11
        invariant Syndrome(pattern) == Syndrome(received)
        decreases pattern
      {
        while And(aux, pattern) == 0
          invariant 11 <= k <= 22 && aux == Pow2(k) && X11 <= pattern < Pow2(k + 1)
          decreases k
        {
          AndPow2(pattern, k);
          BitTop(pattern, k);
          aux, k := aux / 2, k - 1;
        }
        DivisionStep(pattern, k, received);
        Pow2Mono(k + 1, 23);
        pattern := Xor(pattern, aux / X11 * GENPOL);
        MaskedBits(pattern);
      }
    }
    RemainderSmall(pattern);
    SyndromeIs(pattern, pattern);
  }
}
