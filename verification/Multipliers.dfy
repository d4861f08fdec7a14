/** Which multiplier the interleaver uses for a number of bits, said without its table. */
module Multipliers {
  import opened Interleaver

  // ----- no prime is missing from the table below 353

  /** A multiple of one of the odd primes below 18, and not that prime. */
  predicate HasOddFactor(m: nat) {
    || (m > 3 && m % 3 == 0) || (m > 5 && m % 5 == 0) || (m > 7 && m % 7 == 0)
    || (m > 11 && m % 11 == 0) || (m > 13 && m % 13 == 0) || (m > 17 && m % 17 == 0)
  }

  lemma DividedBy(m: nat, d: nat)
    requires 1 < d < m && m % d == 0
    ensures !IsPrime(m)
  {
    assert m == d * (m / d);
    assert Divides(d, m);
  }

  lemma OddFactorComposite(m: nat)
    requires HasOddFactor(m)
    ensures !IsPrime(m)
  {
    hide IsPrime;
    if m > 3 && m % 3 == 0 {
      DividedBy(m, 3);
    } else if m > 5 && m % 5 == 0 {
      DividedBy(m, 5);
    } else if m > 7 && m % 7 == 0 {
      DividedBy(m, 7);
    } else if m > 11 && m % 11 == 0 {
      DividedBy(m, 11);
    } else if m > 13 && m % 13 == 0 {
      DividedBy(m, 13);
    } else {
      DividedBy(m, 17);
    }
  }

  /** All odd numbers strictly between `lo` and `hi` have such a factor. */
  predicate OddsFactored(lo: nat, hi: nat)
    decreases hi - lo
  {
    lo + 1 >= hi || ((lo % 2 == 0 ==> HasOddFactor(lo + 1)) && OddsFactored(lo + 1, hi))
  }

  lemma {:induction false} FactorOf(lo: nat, hi: nat, m: nat)
    requires OddsFactored(lo, hi) && lo < m < hi && m % 2 == 1
    ensures HasOddFactor(m)
    decreases hi - lo
  {
    hide HasOddFactor;
    if m != lo + 1 {
      FactorOf(lo + 1, hi, m);
    }
  }

  lemma Gaps1()
    ensures OddsFactored(2, 3) && OddsFactored(3, 5) && OddsFactored(5, 7) && OddsFactored(7, 11)
    ensures OddsFactored(11, 13) && OddsFactored(13, 17) && OddsFactored(17, 19) && OddsFactored(19, 23)
    ensures OddsFactored(23, 29) && OddsFactored(29, 31) && OddsFactored(31, 37) && OddsFactored(37, 41)
    ensures OddsFactored(41, 43) && OddsFactored(43, 47)
  {}

  lemma GapsFrom1(k: nat)
    requires 1 <= k < 15
    ensures OddsFactored(PrimeAt(k - 1), PrimeAt(k))
  {
    hide OddsFactored;
    Gaps1();
  }

  lemma Gaps2()
    ensures OddsFactored(47, 53) && OddsFactored(53, 59) && OddsFactored(59, 61) && OddsFactored(61, 67)
    ensures OddsFactored(67, 71) && OddsFactored(71, 73) && OddsFactored(73, 79) && OddsFactored(79, 83)
    ensures OddsFactored(83, 89) && OddsFactored(89, 97) && OddsFactored(97, 101) && OddsFactored(101, 103)
    ensures OddsFactored(103, 107) && OddsFactored(107, 109)
  {}

  lemma GapsFrom15(k: nat)
    requires 15 <= k < 29
    ensures OddsFactored(PrimeAt(k - 1), PrimeAt(k))
  {
    hide OddsFactored;
    Gaps2();
  }

  lemma Gaps3()
    ensures OddsFactored(109, 113) && OddsFactored(113, 127) && OddsFactored(127, 131)
    ensures OddsFactored(131, 137) && OddsFactored(137, 139) && OddsFactored(139, 149)
    ensures OddsFactored(149, 151) && OddsFactored(151, 157) && OddsFactored(157, 163)
    ensures OddsFactored(163, 167) && OddsFactored(167, 173) && OddsFactored(173, 179)
    ensures OddsFactored(179, 181) && OddsFactored(181, 191)
  {}

  lemma GapsFrom29(k: nat)
    requires 29 <= k < 43
    ensures OddsFactored(PrimeAt(k - 1), PrimeAt(k))
  {
    hide OddsFactored;
    Gaps3();
  }

  lemma Gaps4()
    ensures OddsFactored(191, 193) && OddsFactored(193, 197) && OddsFactored(197, 199)
    ensures OddsFactored(199, 211) && OddsFactored(211, 223) && OddsFactored(223, 227)
    ensures OddsFactored(227, 229) && OddsFactored(229, 233) && OddsFactored(233, 239)
    ensures OddsFactored(239, 241) && OddsFactored(241, 251) && OddsFactored(251, 257)
    ensures OddsFactored(257, 263) && OddsFactored(263, 269)
  {}

  lemma GapsFrom43(k: nat)
    requires 43 <= k < 57
    ensures OddsFactored(PrimeAt(k - 1), PrimeAt(k))
  {
    hide OddsFactored;
    Gaps4();
  }

  lemma Gaps5()
    ensures OddsFactored(269, 271) && OddsFactored(271, 277) && OddsFactored(277, 281)
    ensures OddsFactored(281, 283) && OddsFactored(283, 293) && OddsFactored(293, 307)
    ensures OddsFactored(307, 311) && OddsFactored(311, 313) && OddsFactored(313, 317)
    ensures OddsFactored(317, 331) && OddsFactored(331, 337) && OddsFactored(337, 347)
    ensures OddsFactored(347, 349) && OddsFactored(349, 353)
  {}

  lemma GapsFrom57(k: nat)
    requires 57 <= k < 71
    ensures OddsFactored(PrimeAt(k - 1), if k == 70 then 353 else PrimeAt(k))
  {
    hide OddsFactored;
    Gaps5();
  }

  /** Between two neighbours of the table, up to 353, there is no prime. */
  lemma GapComposite(k: nat, m: nat)
    requires 0 < k < 71 && PrimeAt(k - 1) < m < PrimeAt(k) && m < 353
    ensures !IsPrime(m)
  {
    hide PrimeAt, IsPrime, HasOddFactor, OddsFactored;
    TableDense(k);
    if m % 2 == 0 {
      DividedBy(m, 2);
    } else {
      if k < 15 {
        GapsFrom1(k);
      } else if k < 29 {
        GapsFrom15(k);
      } else if k < 43 {
        GapsFrom29(k);
      } else if k < 57 {
        GapsFrom43(k);
      } else {
        GapsFrom57(k);
      }
      FactorOf(PrimeAt(k - 1), if k == 70 then 353 else PrimeAt(k), m);
      OddFactorComposite(m);
    }
  }

  // ----- the multiplier

  lemma {:induction false} PrimesIncrease(i: nat, j: nat)
    requires i < j < PRIMES
    ensures PrimeAt(i) < PrimeAt(j)
    decreases j
  {
    hide PrimeAt;
    TableDense(j);
    if i < j - 1 {
      PrimesIncrease(i, j - 1);
    }
  }

  lemma StopIs(k: nat, n: nat)
    requires 0 < k < PRIMES && PrimeAt(k - 1) < n <= PrimeAt(k) && 2 < n <= 773
    ensures Multiplier(n) == PrimeAt(k - 1)
  {
    hide PrimeAt;
    FirstPrime();
    ScanStops(1, n);
    var stop := ScanFrom(1, n);
    if stop < k {
      if stop < k - 1 {
        PrimesIncrease(stop, k - 1);
      }
    } else if k < stop {
      if k < stop - 1 {
        PrimesIncrease(k, stop - 1);
      }
    }
  }

  lemma EndOfTable()
    ensures PrimeAt(69) == 349 && PrimeAt(70) == 379 && PrimeAt(71) == 383
  {}

  lemma VeryEndOfTable()
    ensures PrimeAt(72) == 389 && PrimeAt(73) == 757 && PrimeAt(74) == 761 && PrimeAt(75) == 769 && PrimeAt(76) == 773
  {}

  /** Up to 353 bits it is the largest prime below their number. */
  lemma LargestPrimeBelow(n: nat)
    requires 3 <= n <= 353
    ensures var b := Multiplier(n); b < n && IsPrime(b) && forall m | b < m < n :: !IsPrime(m)
  {
    hide PrimeAt, IsPrime;
    FirstPrime();
    ScanStops(1, n);
    var stop := ScanFrom(1, n);
    EndOfTable();
    if stop > 70 {
      if stop > 71 {
        PrimesIncrease(70, stop - 1);
      }
    }
    assert stop < 71;
    TablePrime(stop - 1);
    forall m | PrimeAt(stop - 1) < m < n
      ensures !IsPrime(m)
    {
      GapComposite(stop, m);
    }
  }

  /** Beyond, the table has gaps. */
  lemma MultiplierBeyond(n: nat)
    requires 349 < n <= 773
    ensures Multiplier(n) == if n <= 379 then 349 else if n <= 383 then 379 else if n <= 389 then 383
                             else if n <= 757 then 389 else if n <= 761 then 757 else if n <= 769 then 761 else 769
  {
    hide PrimeAt, Multiplier;
    EndOfTable();
    VeryEndOfTable();
    if n <= 379 {
      StopIs(70, n);
    } else if n <= 383 {
      StopIs(71, n);
    } else if n <= 389 {
      StopIs(72, n);
    } else if n <= 757 {
      StopIs(73, n);
    } else if n <= 761 {
      StopIs(74, n);
    } else if n <= 769 {
      StopIs(75, n);
    } else {
      StopIs(76, n);
    }
  }

  // ----- where bits go

  /** Direction 0 moves bit i to position b * i mod n, direction 1 fetches it back from there. */
  lemma BitMoves(bits: seq<bool>, i: nat)
    requires |bits| % 8 == 0 && i < |bits| <= 773
    ensures var p := Multiplier(|bits|) * i % |bits|;
            Permuted(bits, false)[p] == bits[i] && Permuted(bits, true)[i] == bits[p]
  {
    hide Multiplier, Coprime;
    var b, n := Multiplier(|bits|), |bits|;
    MultiplierCoprime(n);
    SourceTarget(b, n, i);
  }

  /** The body of a Horus v2 packet has 504 bits: its bit i goes to position 389 i mod 504. */
  lemma PacketBitMoves(bits: seq<bool>, i: nat)
    requires |bits| == 504 && i < 504
    ensures Permuted(bits, false)[389 * i % 504] == bits[i] && Permuted(bits, true)[i] == bits[389 * i % 504]
  {
    MultiplierBeyond(504);
    BitMoves(bits, i);
  }
}
