/** circular_buffer.hpp: a window onto the last `Length` samples. */
module CircularBuffers {

  class CircularBuffer<T> {
    const underlying: array<T>
    var oldestIndex: nat

    ghost predicate Valid()
      reads this, underlying
    {
      oldestIndex < underlying.Length
    }

    /** The samples, oldest first. */
    ghost function Contents(): (s: seq<T>)
      requires Valid()
      reads this, underlying
      ensures |s| == underlying.Length
    {
      View(underlying[..], oldestIndex)
    }

    constructor (length: nat, initial: T)
      requires length > 0
      ensures Valid() && fresh(underlying) && underlying.Length == length && oldestIndex == 0
      ensures Contents() == seq(length, i => initial)
    {
      underlying := new T[length](_ => initial);
      oldestIndex := 0;
    }

    method Fill(value: T)
      requires Valid()
      modifies underlying
      ensures Valid() && Contents() == seq(underlying.Length, i => value)
    {
      forall i | 0 <= i < underlying.Length {
        underlying[i] := value;
      }
    }

    /** The oldest sample is overwritten; every other sample is one place older. */
    method AddSample(value: T)
      requires Valid()
      modifies this, underlying
      ensures Valid() && Contents() == old(Contents())[1..] + [value]
      ensures oldestIndex == (old(oldestIndex) + 1) % underlying.Length
    {
      ghost var before, i := underlying[..], oldestIndex;
      underlying[oldestIndex] := value;
      oldestIndex := oldestIndex + 1;
      oldestIndex := oldestIndex % underlying.Length;
      assert underlying[..] == before[i := value];
      Rotate(before, i, value);
    }

    /** `operator[]`: 0 is the oldest sample, Size() - 1 the newest, larger indices wrap around. */
    method At(index: nat) returns (value: T)
      requires Valid()
      ensures value == Contents()[index % underlying.Length]
    {
      var realIndex := oldestIndex + index;
      realIndex := realIndex % underlying.Length;
      WrapAround(oldestIndex, index, underlying.Length);
      value := underlying[realIndex];
    }

    method OldestSample() returns (value: T)
      requires Valid()
      ensures value == Contents()[0]
    {
      value := underlying[oldestIndex];
    }
  }

  /** Oldest-first view of an array. */
  function View<T>(a: seq<T>, oldest: nat): seq<T>
    requires oldest <= |a|
  {
    a[oldest..] + a[..oldest]
  }

  lemma Rotate<T>(a: seq<T>, i: nat, value: T)
    requires i < |a|
    ensures View(a[i := value], NextIndex(i, |a|)) == View(a, i)[1..] + [value]
  {
    var b := a[i := value];
    var s, t := View(b, NextIndex(i, |a|)), View(a, i)[1..] + [value];
    forall k | 0 <= k < |a|
      ensures s[k] == t[k]
    {
      var m := i + 1 + k;
      if k < |a| - 1 {
        assert t[k] == View(a, i)[k + 1];
      }
    }
  }

  /** `(i + 1) % n` */
  function NextIndex(i: nat, n: nat): (j: nat)
    requires i < n
    ensures j < n && j == (i + 1) % n
  {
    if i + 1 == n then 0 else i + 1
  }

  lemma WrapAround(oldest: nat, index: nat, n: nat)
    requires oldest < n
    ensures (oldest + index) % n ==
            if oldest + index % n < n then oldest + index % n else oldest + index % n - n
  {
    var q, r := index / n, index % n;
    assert oldest + index == n * q + (oldest + r);
    if oldest + r < n {
      QuotientRemainder(oldest + index, n, q, oldest + r);
    } else {
      assert n * (q + 1) == n * q + n;
      QuotientRemainder(oldest + index, n, q + 1, oldest + r - n);
    }
  }

  lemma QuotientRemainder(x: nat, n: nat, q: nat, r: nat)
    requires x == n * q + r && r < n
    ensures x % n == r
  {
    var e: int := x / n - q;
    assert n * e == r - x % n;
    assert e >= 1 ==> n * e >= n;
    assert e <= -1 ==> n * e <= 0 - n;
  }

  // ----- NewestSample

  /** The index NewestSample computes: an unsigned subtraction, so its test for a negative
      index never succeeds. `modulus` is the number of values of std::size_t. */
  function NewestIndex(oldestIndex: nat, modulus: nat): nat
    requires oldestIndex < modulus
  {
    if oldestIndex == 0 then modulus - 1 else oldestIndex - 1
  }

  function Remainder(n: nat, length: nat): (r: nat)
    requires length > 0
    ensures r < length
  {
    n % length
  }

  /** Index of the oldest sample after a number of AddSample calls. */
  function OldestAfter(calls: nat, length: nat): (i: nat)
    requires length > 0
    ensures i < length
  {
    if calls == 0 then 0 else Remainder(OldestAfter(calls - 1, length) + 1, length)
  }

  /** NewestSample stays inside the buffer exactly if the number of samples added so far is not
      a multiple of the length; then it is the newest sample. */
  lemma NewestIndexInBounds(calls: nat, length: nat, modulus: nat)
    requires 0 < length < modulus
    ensures NewestIndex(OldestAfter(calls, length), modulus) < length <==> calls % length != 0
    ensures calls % length != 0 ==>
              (OldestAfter(calls, length) + (length - 1)) % length == NewestIndex(OldestAfter(calls, length), modulus)
  {
    OldestAfterIs(calls, length);
    var i := calls % length;
    if i != 0 {
      QuotientRemainder(i + (length - 1), length, 1, i - 1);
    }
  }

  lemma {:induction false} OldestAfterIs(calls: nat, length: nat)
    requires length > 0
    ensures OldestAfter(calls, length) == Remainder(calls, length)
  {
    hide Remainder;
    ZeroRemainder(length);
    if calls > 0 {
      OldestAfterIs(calls - 1, length);
      NextRemainder(calls - 1, length);
    }
  }

  lemma NextRemainder(c: nat, length: nat)
    requires length > 0
    ensures Remainder(c + 1, length) == Remainder(Remainder(c, length) + 1, length)
  {
    var q, r := c / length, c % length;
    assert c == length * q + r;
    if r + 1 == length {
      assert length * (q + 1) == length * q + length;
      QuotientRemainder(c + 1, length, q + 1, 0);
      QuotientRemainder(r + 1, length, 1, 0);
    } else {
      QuotientRemainder(c + 1, length, q, r + 1);
      QuotientRemainder(r + 1, length, 0, r + 1);
    }
  }

  lemma ZeroRemainder(length: nat)
    requires length > 0
    ensures Remainder(0, length) == 0
  {}
}
