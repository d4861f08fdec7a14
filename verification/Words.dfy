/** Non-negative machine words and the C operators on them, defined bit by bit.
    No value modelled with these operators reaches the sign bit of its C type. */
module Words {

  predicate Bit(x: nat, k: nat) {
    if k == 0 then x % 2 == 1 else Bit(x / 2, k - 1)
  }

  function B(b: bool): nat {
    if b then 1 else 0
  }

  /** `x ^ y` */
  function Xor(x: nat, y: nat): nat {
    if x == 0 && y == 0 then 0 else 2 * Xor(x / 2, y / 2) + B(x % 2 != y % 2)
  }

  /** `x & y` */
  function And(x: nat, y: nat): nat {
    if x == 0 || y == 0 then 0 else 2 * And(x / 2, y / 2) + B(x % 2 == 1 && y % 2 == 1)
  }

  /** `x | y` */
  function Or(x: nat, y: nat): nat {
    if x == 0 && y == 0 then 0 else 2 * Or(x / 2, y / 2) + B(x % 2 == 1 || y % 2 == 1)
  }

  /** `x << k` */
  function Shl(x: nat, k: nat): nat {
    if k == 0 then x else 2 * Shl(x, k - 1)
  }

  /** `x >> k` */
  function Shr(x: nat, k: nat): nat {
    if k == 0 then x else Shr(x / 2, k - 1)
  }

  /** `1 << k` */
  function Pow2(k: nat): (p: nat)
    ensures p > 0
    decreases k
  {
    if k == 0 then 1 else 2 * Pow2(k - 1)
  }

  /** Value of a bit string, most significant bit first. */
  function FromBits(s: seq<bool>): nat {
    if s == [] then 0 else 2 * FromBits(s[..|s| - 1]) + B(s[|s| - 1])
  }

  /** The low `n` bits of `x`, most significant bit first. */
  function ToBits(x: nat, n: nat): (s: seq<bool>)
    ensures |s| == n
  {
    if n == 0 then [] else ToBits(x / 2, n - 1) + [x % 2 == 1]
  }

  /** Number of ones among the low `n` bits of `x`. */
  function Weight(x: nat, n: nat): nat {
    if n == 0 then 0 else x % 2 + Weight(x / 2, n - 1)
  }

  /** Number of positions at which two bit strings differ. */
  function Distance(s: seq<bool>, t: seq<bool>): nat
    requires |s| == |t|
  {
    if s == [] then 0
    else Distance(s[..|s| - 1], t[..|t| - 1]) + B(s[|s| - 1] != t[|t| - 1])
  }

  // ----- exclusive or is addition of polynomials over GF(2)

  lemma {:induction false} XorComm(x: nat, y: nat)
    ensures Xor(x, y) == Xor(y, x)
  {
    if x != 0 || y != 0 {
      XorComm(x / 2, y / 2);
    }
  }

  lemma {:induction false} XorAssoc(x: nat, y: nat, z: nat)
    ensures Xor(Xor(x, y), z) == Xor(x, Xor(y, z))
    decreases x + y + z
  {
    if x != 0 || y != 0 || z != 0 {
      XorAssoc(x / 2, y / 2, z / 2);
      XorStep(x, y);
      XorStep(y, z);
      XorStep(Xor(x, y), z);
      XorStep(x, Xor(y, z));
    }
  }

  lemma XorStep(x: nat, y: nat)
    ensures Xor(x, y) / 2 == Xor(x / 2, y / 2)
    ensures Xor(x, y) % 2 == B(x % 2 != y % 2)
  {}

  lemma {:induction false} XorZero(x: nat)
    ensures Xor(x, 0) == x && Xor(0, x) == x
  {
    if x != 0 {
      XorZero(x / 2);
    }
  }

  lemma {:induction false} XorSelf(x: nat)
    ensures Xor(x, x) == 0
  {
    if x != 0 {
      XorSelf(x / 2);
    }
  }

  lemma XorCancel(x: nat, y: nat)
    ensures Xor(Xor(x, y), y) == x
    ensures Xor(x, y) == 0 ==> x == y
  {
    XorAssoc(x, y, y);
    XorSelf(y);
    XorZero(x);
    XorZero(y);
  }

  /** (a + b) + (c + d) == (a + c) + (b + d) */
  lemma XorSwap(a: nat, b: nat, c: nat, d: nat)
    ensures Xor(Xor(a, b), Xor(c, d)) == Xor(Xor(a, c), Xor(b, d))
  {
    XorAssoc(a, b, Xor(c, d));
    XorAssoc(b, c, d);
    XorComm(b, c);
    XorAssoc(c, b, d);
    XorAssoc(a, c, Xor(b, d));
  }

  lemma XorDouble(x: nat, y: nat)
    ensures Xor(2 * x, 2 * y) == 2 * Xor(x, y)
  {}

  lemma {:induction false} XorBound(x: nat, y: nat, n: nat)
    requires x < Pow2(n) && y < Pow2(n)
    ensures Xor(x, y) < Pow2(n)
  {
    if n > 0 && (x != 0 || y != 0) {
      XorBound(x / 2, y / 2, n - 1);
    }
  }

  /** Adding where the low `n` bits are free is the same as xor and or. */
  lemma {:induction false} JoinLow(x: nat, y: nat, n: nat)
    requires y < Pow2(n)
    ensures Xor(Shl(x, n), y) == Shl(x, n) + y == Or(Shl(x, n), y)
  {
    if n == 0 {
      XorZero(x);
      OrZero(x);
    } else {
      ShlStep(x, n);
      JoinLow(x, y / 2, n - 1);
    }
  }

  lemma {:induction false} OrZero(x: nat)
    ensures Or(x, 0) == x && Or(0, x) == x
  {
    if x != 0 {
      OrZero(x / 2);
    }
  }

  /** Or-ing one bit into a word whose last bit is free. */
  lemma OrLast(x: nat, b: bool)
    ensures Or(2 * x, B(b)) == 2 * x + B(b)
  {
    OrZero(x);
  }

  lemma ShlStep(x: nat, k: nat)
    requires k > 0
    ensures Shl(x, k) / 2 == Shl(x, k - 1) && Shl(x, k) % 2 == 0
  {}

  lemma {:induction false} ShlPow2(x: nat, k: nat)
    ensures Shl(x, k) == x * Pow2(k)
  {
    if k > 0 {
      ShlPow2(x, k - 1);
    }
  }

  lemma {:induction false} ShrXor(x: nat, y: nat, k: nat)
    ensures Shr(Xor(x, y), k) == Xor(Shr(x, k), Shr(y, k))
  {
    if k > 0 {
      XorStep(x, y);
      ShrXor(x / 2, y / 2, k - 1);
    }
  }

  lemma {:induction false} ShrZero(x: nat, k: nat)
    ensures Shr(x, k) == 0 <==> x < Pow2(k)
  {
    if k > 0 {
      ShrZero(x / 2, k - 1);
    }
  }

  lemma {:induction false} ShrShl(x: nat, y: nat, k: nat)
    requires y < Pow2(k)
    ensures Shr(Shl(x, k) + y, k) == x
  {
    if k > 0 {
      assert (Shl(x, k) + y) / 2 == Shl(x, k - 1) + y / 2;
      ShrShl(x, y / 2, k - 1);
    }
  }

  /** The C idiom `(x >> k) & 1`. */
  lemma {:induction false} ShrAndOne(x: nat, k: nat)
    ensures And(Shr(x, k), 1) == B(Bit(x, k))
  {
    if k > 0 {
      ShrAndOne(x / 2, k - 1);
    } else {
      assert And(x / 2, 0) == 0;
    }
  }

  lemma {:induction false} Pow2Mono(m: nat, n: nat)
    requires m <= n
    ensures Pow2(m) <= Pow2(n)
  {
    if m < n {
      Pow2Mono(m, n - 1);
    }
  }

  // ----- bits

  lemma {:induction false} BitXor(x: nat, y: nat, k: nat)
    ensures Bit(Xor(x, y), k) == (Bit(x, k) != Bit(y, k))
  {
    XorStep(x, y);
    if k > 0 {
      BitXor(x / 2, y / 2, k - 1);
    }
  }

  lemma {:induction false} BitBelow(x: nat, n: nat, k: nat)
    requires x < Pow2(n) && n <= k
    ensures !Bit(x, k)
    decreases k
  {
    if n == 0 {
      if k > 0 {
        BitBelow(x / 2, 0, k - 1);
      }
    } else {
      BitBelow(x / 2, n - 1, k - 1);
    }
  }

  /** The top bit of a word of `n + 1` bits decides whether it reaches `1 << n`. */
  lemma {:induction false} BitTop(x: nat, n: nat)
    requires x < Pow2(n + 1)
    ensures Bit(x, n) <==> x >= Pow2(n)
  {
    if n > 0 {
      BitTop(x / 2, n - 1);
    }
  }

  lemma {:induction false} AndPow2(x: nat, k: nat)
    ensures And(Pow2(k), x) == if Bit(x, k) then Pow2(k) else 0
  {
    if x == 0 {
      BitBelow(0, 0, k);
    } else if k > 0 {
      AndPow2(x / 2, k - 1);
    }
  }

  // ----- bit strings

  lemma FromBitsAppend(s: seq<bool>, b: bool)
    ensures FromBits(s + [b]) == 2 * FromBits(s) + B(b)
  {
    assert (s + [b])[..|s|] == s;
  }

  lemma {:induction false} FromBitsConcat(s: seq<bool>, t: seq<bool>)
    ensures FromBits(s + t) == Shl(FromBits(s), |t|) + FromBits(t)
  {
    if t == [] {
      assert s + t == s;
    } else {
      var t', b := t[..|t| - 1], t[|t| - 1];
      assert s + t == (s + t') + [b];
      FromBitsAppend(s + t', b);
      FromBitsConcat(s, t');
    }
  }

  lemma {:induction false} FromBitsBound(s: seq<bool>)
    ensures FromBits(s) < Pow2(|s|)
  {
    if s != [] {
      FromBitsBound(s[..|s| - 1]);
    }
  }

  lemma {:induction false} FromToBits(x: nat, n: nat)
    requires x < Pow2(n)
    ensures FromBits(ToBits(x, n)) == x
  {
    if n > 0 {
      FromToBits(x / 2, n - 1);
      FromBitsAppend(ToBits(x / 2, n - 1), x % 2 == 1);
    }
  }

  lemma {:induction false} ToFromBits(s: seq<bool>)
    ensures ToBits(FromBits(s), |s|) == s
  {
    if s != [] {
      var t, b := s[..|s| - 1], s[|s| - 1];
      assert s == t + [b];
      FromBitsAppend(t, b);
      ToFromBits(t);
    }
  }

  lemma {:induction false} ToBitsIndex(x: nat, n: nat, i: nat)
    requires i < n
    ensures ToBits(x, n)[i] == Bit(x, n - 1 - i)
  {
    if i < n - 1 {
      ToBitsIndex(x / 2, n - 1, i);
    }
  }

  // ----- weights

  lemma {:induction false} WeightXor(x: nat, y: nat, n: nat)
    ensures Weight(Xor(x, y), n) <= Weight(x, n) + Weight(y, n)
  {
    if n > 0 {
      XorStep(x, y);
      WeightXor(x / 2, y / 2, n - 1);
    }
  }

  lemma {:induction false} WeightZero(x: nat, n: nat)
    requires x < Pow2(n)
    ensures Weight(x, n) == 0 <==> x == 0
  {
    if n > 0 {
      WeightZero(x / 2, n - 1);
    }
  }

  /** Hamming distance of bit strings is the weight of the xor of their values. */
  lemma {:induction false} DistanceIsWeight(s: seq<bool>, t: seq<bool>)
    requires |s| == |t|
    ensures Weight(Xor(FromBits(s), FromBits(t)), |s|) == Distance(s, t)
  {
    if s != [] {
      DistanceIsWeight(s[..|s| - 1], t[..|t| - 1]);
      XorStep(FromBits(s), FromBits(t));
    }
  }

  lemma {:induction false} DistanceConcat(s: seq<bool>, t: seq<bool>, s': seq<bool>, t': seq<bool>)
    requires |s| == |s'| && |t| == |t'|
    ensures Distance(s + t, s' + t') == Distance(s, s') + Distance(t, t')
  {
    if t == [] {
      assert s + t == s && s' + t' == s';
    } else {
      var n := |t| - 1;
      assert (s + t)[..|s + t| - 1] == s + t[..n];
      assert (s' + t')[..|s' + t'| - 1] == s' + t'[..n];
      DistanceConcat(s, t[..n], s', t'[..n]);
    }
  }
}
