/** The bit interleaver of horus.c: bit i moves to b * i modulo the number of bits, where b is
    the largest table prime below that number. */
module Interleaver {
  import opened Bytes

  // ----- multiplication by a coprime number permutes the residues

  ghost predicate Coprime(b: nat, n: nat) {
    forall d: nat :: d > 1 ==> !(Divides(d, b) && Divides(d, n))
  }

  ghost predicate Divides(d: nat, x: nat) {
    exists k: nat :: x == d * k
  }

  /** Where bit `i` of `n` moves to. */
  function Target(b: nat, n: nat, i: nat): (j: nat)
    requires n > 0
    ensures j < n
  {
    b * i % n
  }

  lemma BezoutStep(a: nat, b: nat, q: nat, r: nat, x: int, y: int)
    requires a == b * q + r
    ensures a * y + b * (x - q * y) == b * x + r * y
  {
    assert a * y == b * q * y + r * y;
    assert b * (x - q * y) == b * x - b * (q * y);
    assert b * q * y == b * (q * y);
  }

  lemma DividesSum(g: nat, b: nat, q: nat, r: nat)
    requires Divides(g, b) && Divides(g, r)
    ensures Divides(g, b * q + r)
  {
    var k: nat, m: nat :| b == g * k && r == g * m;
    assert g * (k * q + m) == g * k * q + g * m;
    assert b * q + r == g * (k * q + m);
  }

  /** Euclid's algorithm with Bezout coefficients. */
  lemma {:induction false} Bezout(a: nat, b: nat) returns (g: nat, x: int, y: int)
    requires a > 0 || b > 0
    ensures g > 0 && g == a * x + b * y && Divides(g, a) && Divides(g, b)
    decreases b
  {
    if b == 0 {
      g, x, y := a, 1, 0;
      assert a == g * 1 && b == g * 0;
    } else {
      hide Divides;
      var q, r := a / b, a % b;
      var x', y';
      g, x', y' := Bezout(b, r);
      BezoutStep(a, b, q, r, x', y');
      x, y := y', x' - q * y';
      DividesSum(g, b, q, r);
    }
  }

  /** A multiplier coprime to the modulus has an inverse. */
  lemma InverseExists(b: nat, n: nat) returns (u: int, v: int)
    requires n > 0 && Coprime(b, n)
    ensures u * b == 1 + n * v
  {
    var g, x, y := Bezout(b, n);
    assert g == 1;
    u, v := x, -y;
  }

  lemma RemainderIs(x: int, n: nat, q: int, r: nat)
    requires x == n * q + r && r < n
    ensures x % n == r
  {
    var e := x / n - q;
    assert n * e == r - x % n;
    MultipleAtLeast(n, e);
  }

  /** Multiplying by the inverse undoes multiplying by b, up to multiples of n. */
  lemma InverseUndoes(b: nat, n: nat, u: int, v: int, i: int)
    requires u * b == 1 + n * v
    ensures u * (b * i) == i + n * (v * i)
  {
    assert u * (b * i) == (u * b) * i;
    assert (1 + n * v) * i == i + n * v * i;
    assert n * v * i == n * (v * i);
  }

  lemma DifferenceOfMultiples(n: nat, u: int, x: int, y: int, t: int)
    requires x - y == n * t
    ensures u * x - u * y == n * (u * t)
  {
    assert u * (x - y) == u * x - u * y;
    assert u * (n * t) == n * (u * t);
  }

  lemma SameRemainder(x: nat, y: nat, n: nat)
    requires n > 0 && x % n == y % n
    ensures x - y == n * (x / n - y / n)
  {
    assert x == n * (x / n) + x % n && y == n * (y / n) + y % n;
  }

  /** Every position is the target of at most one bit ... */
  lemma TargetInjective(b: nat, n: nat, i: nat, j: nat)
    requires i < n && j < n && Coprime(b, n) && Target(b, n, i) == Target(b, n, j)
    ensures i == j
  {
    hide Coprime;
    var u, v := InverseExists(b, n);
    var t := b * i / n - b * j / n;
    SameRemainder(b * i, b * j, n);
    DifferenceOfMultiples(n, u, b * i, b * j, t);
    InverseUndoes(b, n, u, v, i);
    InverseUndoes(b, n, u, v, j);
    var e := u * t - v * i + v * j;
    Collect(n, u * t, v * i, v * j);
    MultipleAtLeast(n, e);
  }

  lemma Collect(n: nat, x: int, y: int, z: int)
    ensures n * (x - y + z) == n * x - n * y + n * z
  {}

  /** ... and at least one. */
  lemma TargetSurjective(b: nat, n: nat, p: nat)
    requires p < n && Coprime(b, n)
    ensures exists i: nat :: i < n && Target(b, n, i) == p
  {
    hide Coprime;
    var u, v := InverseExists(b, n);
    var i, q := u * p % n, u * p / n;
    DivideBack(u * p, n);
    InverseUndoes(b, n, u, v, p);
    BackAndForth(b, n, u, v, p, q, i);
    ReachesTarget(b, n, p, i, v * p - b * q);
  }

  lemma DivideBack(x: int, n: nat)
    requires n > 0
    ensures x == n * (x / n) + x % n && 0 <= x % n < n
  {}

  lemma ReachesTarget(b: nat, n: nat, p: nat, i: nat, t: int)
    requires p < n && i < n && b * i == p + n * t
    ensures i < n && Target(b, n, i) == p
  {
    RemainderIs(b * i, n, t, p);
  }

  lemma BackAndForth(b: nat, n: nat, u: int, v: int, p: nat, q: int, i: nat)
    requires u * p == n * q + i && u * (b * p) == p + n * (v * p)
    ensures b * i == p + n * (v * p - b * q)
  {
    assert b * (u * p) == u * (b * p);
    assert b * (n * q + i) == n * (b * q) + b * i;
    assert n * (v * p - b * q) == n * (v * p) - n * (b * q);
  }

  // ----- the table of primes

  /** `primes[k]` */
  function PrimeAt(k: nat): nat {
    if k == 0 then 2 else if k == 1 then 3 else if k == 2 then 5 else if k == 3 then 7 else
    if k == 4 then 11 else if k == 5 then 13 else if k == 6 then 17 else if k == 7 then 19 else
    if k == 8 then 23 else if k == 9 then 29 else if k == 10 then 31 else if k == 11 then 37 else
    if k == 12 then 41 else if k == 13 then 43 else if k == 14 then 47 else if k == 15 then 53 else
    if k == 16 then 59 else if k == 17 then 61 else if k == 18 then 67 else if k == 19 then 71 else
    if k == 20 then 73 else if k == 21 then 79 else if k == 22 then 83 else if k == 23 then 89 else
    if k == 24 then 97 else if k == 25 then 101 else if k == 26 then 103 else if k == 27 then 107 else
    if k == 28 then 109 else if k == 29 then 113 else if k == 30 then 127 else if k == 31 then 131 else
    if k == 32 then 137 else if k == 33 then 139 else if k == 34 then 149 else if k == 35 then 151 else
    if k == 36 then 157 else if k == 37 then 163 else if k == 38 then 167 else if k == 39 then 173 else
    if k == 40 then 179 else if k == 41 then 181 else if k == 42 then 191 else if k == 43 then 193 else
    if k == 44 then 197 else if k == 45 then 199 else if k == 46 then 211 else if k == 47 then 223 else
    if k == 48 then 227 else if k == 49 then 229 else if k == 50 then 233 else if k == 51 then 239 else
    if k == 52 then 241 else if k == 53 then 251 else if k == 54 then 257 else if k == 55 then 263 else
    if k == 56 then 269 else if k == 57 then 271 else if k == 58 then 277 else if k == 59 then 281 else
    if k == 60 then 283 else if k == 61 then 293 else if k == 62 then 307 else if k == 63 then 311 else
    if k == 64 then 313 else if k == 65 then 317 else if k == 66 then 331 else if k == 67 then 337 else
    if k == 68 then 347 else if k == 69 then 349 else if k == 70 then 379 else if k == 71 then 383 else
    if k == 72 then 389 else if k == 73 then 757 else if k == 74 then 761 else if k == 75 then 769 else 773
  }

  const PRIMES := 77

  ghost predicate IsPrime(p: nat) {
    p > 1 && forall d: nat | 1 < d < p :: !Divides(d, p)
  }

  /** Not divisible by any other prime below 29. */
  predicate TrialDivision(p: nat) {
    && (p % 2 != 0 || p == 2) && (p % 3 != 0 || p == 3) && (p % 5 != 0 || p == 5)
    && (p % 7 != 0 || p == 7) && (p % 11 != 0 || p == 11) && (p % 13 != 0 || p == 13)
    && (p % 17 != 0 || p == 17) && (p % 19 != 0 || p == 19) && (p % 23 != 0 || p == 23)
  }

  lemma TableTrialLow(k: nat)
    requires k < 26
    ensures TrialDivision(PrimeAt(k))
  {}

  lemma TableTrialMiddle(k: nat)
    requires 26 <= k < 52
    ensures TrialDivision(PrimeAt(k))
  {}

  lemma TableTrialHigh(k: nat)
    requires 52 <= k < PRIMES
    ensures TrialDivision(PrimeAt(k))
  {}

  /** The table is increasing, and each prime is less than twice the one before. */
  lemma TableDense(k: nat)
    requires 0 < k < PRIMES
    ensures 2 <= PrimeAt(k - 1) < PrimeAt(k) < 2 * PrimeAt(k - 1) && PrimeAt(k) <= 773
  {
    hide PrimeAt;
    if k < 38 {
      TableDenseLow(k);
    } else {
      TableDenseHigh(k);
    }
  }

  lemma TableDenseLow(k: nat)
    requires 0 < k < 38
    ensures 2 <= PrimeAt(k - 1) < PrimeAt(k) < 2 * PrimeAt(k - 1) && PrimeAt(k) <= 773
  {}

  lemma TableDenseHigh(k: nat)
    requires 38 <= k < PRIMES
    ensures 2 <= PrimeAt(k - 1) < PrimeAt(k) < 2 * PrimeAt(k - 1) && PrimeAt(k) <= 773
  {}

  /** Below 29 every number has one of the nine prime factors. */
  lemma PrimeFactorBelow29(d: nat) returns (f: nat)
    requires 1 < d < 29
    ensures f in {2, 3, 5, 7, 11, 13, 17, 19, 23} && d % f == 0
  {
    f := if d % 2 == 0 then 2 else if d % 3 == 0 then 3 else if d % 5 == 0 then 5 else d;
  }

  lemma Factor(p: nat, d: nat, e: nat, f: nat)
    requires f > 0 && p == d * e && d % f == 0
    ensures p % f == 0
  {
    assert d == f * (d / f);
    assert p == f * (d / f * e);
    RemainderIs(p, f, d / f * e, 0);
  }

  lemma NoSmallFactor(p: nat, d: nat, e: nat)
    requires 1 < d < p && d < 29 && TrialDivision(p)
    ensures p != d * e
  {
    if p == d * e {
      var f := PrimeFactorBelow29(d);
      Factor(p, d, e, f);
    }
  }

  lemma LargeFactors(d: nat, e: nat)
    ensures d >= 29 && e >= 29 ==> d * e >= 841
    ensures d > 1 && e > 1 ==> d * e > e
    ensures e <= 1 ==> d * e <= d
  {}

  lemma TrialDivisionPrime(p: nat)
    requires 1 < p < 841 && TrialDivision(p)
    ensures IsPrime(p)
  {
    forall d: nat, e: nat | 1 < d < p
      ensures p != d * e
    {
      LargeFactors(d, e);
      if d < 29 {
        NoSmallFactor(p, d, e);
      } else if 1 < e < 29 && e < p {
        NoSmallFactor(p, e, d);
      }
    }
  }

  lemma TablePrime(k: nat)
    requires k < PRIMES
    ensures IsPrime(PrimeAt(k))
  {
    hide PrimeAt;
    if k < 26 {
      TableTrialLow(k);
    } else if k < 52 {
      TableTrialMiddle(k);
    } else {
      TableTrialHigh(k);
    }
    TableDense(if k == 0 then 1 else k);
    TrialDivisionPrime(PrimeAt(k));
  }

  lemma PrimeDivisor(p: nat, d: nat)
    requires IsPrime(p) && d > 1 && Divides(d, p)
    ensures d == p
  {
    var k: nat :| p == d * k;
    LargeFactors(k, d);
  }

  lemma NotAMultiple(p: nat, n: nat)
    requires p < n < 2 * p
    ensures !Divides(p, n)
  {
    forall m: nat
      ensures n != p * m
    {
      MultipleAtLeast(p, m);
      MultipleAtLeast(p, m - 1);
      assert p * (m - 1) == p * m - p;
    }
  }

  /** A prime that lies between n/2 and n is coprime to n. */
  lemma PrimeCoprime(p: nat, n: nat)
    requires IsPrime(p) && p < n < 2 * p
    ensures Coprime(p, n)
  {
    NotAMultiple(p, n);
    forall d: nat | d > 1
      ensures !(Divides(d, p) && Divides(d, n))
    {
      if Divides(d, p) {
        PrimeDivisor(p, d);
      }
    }
  }

  // ----- interleaving a bit string

  /** Index at which the scan for the first table prime not below `nbits` stops. */
  function ScanFrom(k: nat, nbits: nat): (stop: nat)
    requires k <= PRIMES
    decreases PRIMES - k
  {
    if k < PRIMES && PrimeAt(k) < nbits then ScanFrom(k + 1, nbits) else k
  }

  function Multiplier(nbits: nat): nat {
    var stop := ScanFrom(1, nbits);
    if stop == 0 then 0 else PrimeAt(stop - 1)
  }

  lemma {:induction false} ScanStops(k: nat, nbits: nat)
    requires 0 < k < PRIMES && PrimeAt(k - 1) < nbits <= 773
    ensures var stop := ScanFrom(k, nbits);
            k <= stop < PRIMES && PrimeAt(stop - 1) < nbits <= PrimeAt(stop)
    decreases PRIMES - k
  {
    hide PrimeAt;
    if PrimeAt(k) < nbits {
      LastPrime(k);
      ScanStops(k + 1, nbits);
    }
  }

  lemma {:induction false} ScanOverruns(k: nat, nbits: nat)
    requires 0 < k <= PRIMES && nbits > 773
    ensures ScanFrom(k, nbits) == PRIMES
    decreases PRIMES - k
  {
    hide PrimeAt;
    if k < PRIMES {
      TableDense(k);
      ScanOverruns(k + 1, nbits);
    }
  }

  /** The scan ends inside the table exactly for up to 773 bits. */
  lemma ScanExactly(nbits: nat)
    ensures ScanFrom(1, nbits) < PRIMES <==> nbits <= 773
  {
    if nbits > 773 {
      ScanOverruns(1, nbits);
    } else if nbits > 2 {
      ScanStops(1, nbits);
    } else {
      assert ScanFrom(1, nbits) == 1;
    }
  }

  lemma LastPrime(k: nat)
    requires k < PRIMES && PrimeAt(k) < 773
    ensures k + 1 < PRIMES
  {
    LastPrimeIs();
  }

  lemma LastPrimeIs()
    ensures PrimeAt(76) == 773
  {}

  /** For every buffer the table is made for, the multiplier it yields is coprime to the
      number of bits. */
  lemma MultiplierCoprime(nbits: nat)
    requires 3 <= nbits <= 773
    ensures Coprime(Multiplier(nbits), nbits)
  {
    hide PrimeAt;
    FirstPrime();
    ScanStops(1, nbits);
    var stop := ScanFrom(1, nbits);
    TableDense(stop);
    TablePrime(stop - 1);
    PrimeCoprime(PrimeAt(stop - 1), nbits);
  }

  lemma FirstPrime()
    ensures PrimeAt(0) == 2
  {}

  /** The bit that moves to position `p`. */
  ghost function Source(b: nat, n: nat, p: nat): (i: nat)
    requires p < n && Coprime(b, n)
    ensures i < n && Target(b, n, i) == p
  {
    TargetSurjective(b, n, p);
    var i: nat :| i < n && Target(b, n, i) == p;
    i
  }

  lemma SourceTarget(b: nat, n: nat, i: nat)
    requires i < n && Coprime(b, n)
    ensures Source(b, n, Target(b, n, i)) == i
  {
    TargetInjective(b, n, Source(b, n, Target(b, n, i)), i);
  }

  /** Bit i moves to position b * i mod n. */
  ghost function Interleaved(bits: seq<bool>, b: nat): (s: seq<bool>)
    requires Coprime(b, |bits|)
    ensures |s| == |bits|
  {
    seq(|bits|, p requires 0 <= p < |bits| => bits[Source(b, |bits|, p)])
  }

  /** Position i is filled from position b * i mod n. */
  ghost function Deinterleaved(bits: seq<bool>, b: nat): (s: seq<bool>)
    ensures |s| == |bits|
  {
    seq(|bits|, i requires 0 <= i < |bits| => bits[Target(b, |bits|, i)])
  }

  /** Direction 1 undoes direction 0 and the other way round. */
  lemma InterleaveInverse(bits: seq<bool>, b: nat)
    requires Coprime(b, |bits|)
    ensures Deinterleaved(Interleaved(bits, b), b) == bits
    ensures Interleaved(Deinterleaved(bits, b), b) == bits
  {
    forall i | 0 <= i < |bits|
      ensures Deinterleaved(Interleaved(bits, b), b)[i] == bits[i]
      ensures Interleaved(Deinterleaved(bits, b), b)[i] == bits[i]
    {
      SourceTarget(b, |bits|, i);
    }
  }

  // ----- interleaving a buffer in place

  /** The C statement `x |= bit << k`. */
  function OrBit(x: bv8, bit: bool, k: nat): bv8
    requires k < 8
  {
    x | ((if bit then 1 else 0) << k)
  }

  lemma OrBitMasks(x: bv8, bit: bool, k: nat)
    requires k < 8
    ensures (OrBit(x, bit, k) & 1 != 0) == (x & 1 != 0 || (k == 0 && bit))
    ensures (OrBit(x, bit, k) & 2 != 0) == (x & 2 != 0 || (k == 1 && bit))
    ensures (OrBit(x, bit, k) & 4 != 0) == (x & 4 != 0 || (k == 2 && bit))
    ensures (OrBit(x, bit, k) & 8 != 0) == (x & 8 != 0 || (k == 3 && bit))
    ensures (OrBit(x, bit, k) & 16 != 0) == (x & 16 != 0 || (k == 4 && bit))
    ensures (OrBit(x, bit, k) & 32 != 0) == (x & 32 != 0 || (k == 5 && bit))
    ensures (OrBit(x, bit, k) & 64 != 0) == (x & 64 != 0 || (k == 6 && bit))
    ensures (OrBit(x, bit, k) & 128 != 0) == (x & 128 != 0 || (k == 7 && bit))
  {
    assert k == 0 || k == 1 || k == 2 || k == 3 || k == 4 || k == 5 || k == 6 || k == 7;
  }

  lemma OrBitOf(x: bv8, bit: bool, k: nat, m: nat)
    requires k < 8 && m < 8
    ensures BitOf(OrBit(x, bit, k), m) == (BitOf(x, m) || (m == k && bit))
  {
    hide OrBit, BitOf;
    OrBitMasks(x, bit, k);
    BitOfIs(x);
    BitOfIs(OrBit(x, bit, k));
    assert m == 0 || m == 1 || m == 2 || m == 3 || m == 4 || m == 5 || m == 6 || m == 7;
  }

  /** The result of interleaving in either direction. */
  ghost function Permuted(bits: seq<bool>, dir: bool): (s: seq<bool>)
    requires |bits| % 8 == 0 && |bits| <= 773
    ensures |s| == |bits|
  {
    if bits == [] then []
    else
      MultiplierCoprime(|bits|);
      if dir then Deinterleaved(bits, Multiplier(|bits|)) else Interleaved(bits, Multiplier(|bits|))
  }

  /** The number of the loop round that fills position `p`. */
  ghost function Round(b: nat, n: nat, dir: bool, p: nat): (r: nat)
    requires p < n && Coprime(b, n)
    ensures r < n
  {
    if dir then p else Source(b, n, p)
  }

  /** What the output buffer holds after `rounds` rounds: no two rounds write the same bit. */
  ghost predicate Filled(out: seq<bv8>, bits: seq<bool>, b: nat, dir: bool, rounds: nat)
    requires |bits| == 8 * |out| && Coprime(b, |bits|)
  {
    forall p: nat | p < |bits| ::
      BitOf(out[p / 8], p % 8) ==
      var r := Round(b, |bits|, dir, p);
      (r < rounds && bits[if dir then Target(b, |bits|, r) else r])
  }

  lemma FillStep(out: seq<bv8>, bits: seq<bool>, b: nat, dir: bool, n: nat)
    requires |bits| == 8 * |out| && Coprime(b, |bits|) && Filled(out, bits, b, dir, n) && n < |bits|
    ensures var i := if dir then Target(b, |bits|, n) else n;
            var j := if dir then n else Target(b, |bits|, n);
            Filled(out[j / 8 := OrBit(out[j / 8], bits[i], j % 8)], bits, b, dir, n + 1)
  {
    hide Coprime, OrBit, BitOf;
    var i := if dir then Target(b, |bits|, n) else n;
    var j := if dir then n else Target(b, |bits|, n);
    var next := out[j / 8 := OrBit(out[j / 8], bits[i], j % 8)];
    SourceTarget(b, |bits|, n);
    assert Round(b, |bits|, dir, j) == n;
    forall p: nat | p < |bits|
      ensures BitOf(next[p / 8], p % 8) ==
              var r := Round(b, |bits|, dir, p);
              (r < n + 1 && bits[if dir then Target(b, |bits|, r) else r])
    {
      if p / 8 == j / 8 {
        OrBitOf(out[j / 8], bits[i], j % 8, p % 8);
        assert p % 8 == j % 8 ==> p == j;
      }
    }
  }

  lemma FilledStart(out: seq<bv8>, bits: seq<bool>, b: nat, dir: bool)
    requires |bits| == 8 * |out| && Coprime(b, |bits|) && forall k | 0 <= k < |out| :: out[k] == 0
    ensures Filled(out, bits, b, dir, 0)
  {
    forall p: nat | p < |bits|
      ensures !BitOf(out[p / 8], p % 8)
    {
      assert out[p / 8] == 0;
      NoBitOfZero(p % 8);
    }
  }

  lemma NoBitOfZero(k: nat)
    requires k < 8
    ensures !BitOf(0, k)
  {}

  lemma FilledEnd(out: seq<bv8>, bits: seq<bool>, dir: bool)
    requires |bits| == 8 * |out| && 0 < |bits| <= 773
    requires Coprime(Multiplier(|bits|), |bits|) && Filled(out, bits, Multiplier(|bits|), dir, |bits|)
    ensures LsbBits(out) == Permuted(bits, dir)
  {
    hide BitOf, Coprime, Multiplier;
    forall p | 0 <= p < |bits|
      ensures LsbBits(out)[p] == Permuted(bits, dir)[p]
    {
      assert LsbBits(out)[p] == BitOf(out[p / 8], p % 8);
    }
  }

  /** The table prime closest below the number of bits. The source tests the prime before the
      index, so `overrun` says whether it reads one entry past the table; what it reads there does
      not matter, the index ends the loop. */
  method FindMultiplier(nbits: nat) returns (b: nat, overrun: bool)
    ensures b == Multiplier(nbits)
    ensures overrun <==> nbits > 773
  {
    hide PrimeAt;
    ScanExactly(nbits);
    var k := 1;
    while k < PRIMES && PrimeAt(k) < nbits
      invariant 1 <= k <= PRIMES && ScanFrom(k, nbits) == ScanFrom(1, nbits)
      decreases PRIMES - k
    {
      k := k + 1;
    }
    b, overrun := PrimeAt(k - 1), k == PRIMES;
  }

  /** The bit loop: fills a fresh buffer from the `nbytes` bytes from `off` on. */
  method PermuteBits(inout: array<bv8>, off: nat, nbytes: nat, dir: bool, b: nat, ghost bits: seq<bool>)
    returns (out: array<bv8>)
    requires off + nbytes <= inout.Length && bits == LsbBits(inout[off..off + nbytes])
    requires Coprime(b, |bits|) && nbytes > 0
    ensures fresh(out) && out.Length == nbytes && Filled(out[..], bits, b, dir, |bits|)
  {
    hide Coprime, Filled, OrBit, BitOf, LsbBits;
    var nbits := nbytes * 8;
    out := new bv8[nbytes](_ => 0);
    FilledStart(out[..], bits, b, dir);
    for n := 0 to nbits
      invariant Filled(out[..], bits, b, dir, n)
    {
      var i, j := n, Target(b, nbits, n);
      if dir {
        i, j := j, i;
      }
      assert inout[off..off + nbytes][i / 8] == inout[off + i / 8];
      FillStep(out[..], bits, b, dir, n);
      ghost var before := out[..];
      out[j / 8] := OrBit(out[j / 8], BitOf(inout[off + i / 8], i % 8), j % 8);
      assert out[..] == before[j / 8 := OrBit(before[j / 8], bits[i], j % 8)];
    }
  }

  /** `interleave` on the `nbytes` bytes from `off` on: a permutation of their bits. */
  method Interleave(inout: array<bv8>, off: nat, nbytes: nat, dir: bool)
    requires off + nbytes <= inout.Length && 8 * nbytes <= 773
    modifies inout
    ensures LsbBits(inout[off..off + nbytes]) == Permuted(LsbBits(old(inout[off..off + nbytes])), dir)
    ensures forall k | 0 <= k < off || off + nbytes <= k < inout.Length :: inout[k] == old(inout[k])
  {
    hide Coprime, Filled, Permuted, LsbBits, Multiplier;
    var nbits := nbytes * 8;
    ghost var bits := LsbBits(inout[off..off + nbytes]);
    var b, overrun := FindMultiplier(nbits);
    assert !overrun;
    if nbytes > 0 {
      MultiplierCoprime(nbits);
      var out := PermuteBits(inout, off, nbytes, dir, b, bits);
      FilledEnd(out[..], bits, dir);
      forall m | 0 <= m < nbytes {
        inout[off + m] := out[m];
      }
      assert inout[off..off + nbytes] == out[..];
    } else {
      NothingPermuted(dir);
      assert inout[off..off] == [];
    }
  }

  lemma NothingPermuted(dir: bool)
    ensures Permuted([], dir) == [] && LsbBits([]) == []
  {}
}
