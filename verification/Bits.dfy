/** Numbers as bit sets: reading and or-ing in single bits. */
module Bits {
  import opened Numerals

  function Bit(m: nat, r: nat): nat {
    (m / Pow(2, r)) % 2
  }

  /** m with `bit` or-ed in at position r. */
  function OrBit(m: nat, r: nat, bit: nat): nat {
    if bit == 1 && Bit(m, r) == 0 then m + Pow(2, r) else m
  }

  lemma DivAdd(m: nat, a: nat, q: nat)
    requires a > 0
    ensures (m + q * a) / a == m / a + q
  {
    var d, e := m / a, m % a;
    assert m + q * a == (d + q) * a + e;
    DivModUnique(d + q, a, e);
  }

  lemma LowerBitKept(m: nat, k: nat, r: nat)
    requires r < k
    ensures Bit(m + Pow(2, k), r) == Bit(m, r)
  {
    PowAdd(2, k - r, r);
    ShiftedBit(m, Pow(2, r), Pow(2, k - r - 1), Pow(2, k - r), Pow(2, k));
  }

  lemma ShiftedBit(m: nat, p: nat, half: nat, q: nat, n: nat)
    requires p > 0 && q == 2 * half && n == q * p
    ensures (m + n) / p % 2 == m / p % 2
  {
    DivAdd(m, p, q);
    EvenAdded(m / p, half);
  }

  lemma EvenAdded(x: nat, y: nat)
    ensures (x + 2 * y) % 2 == x % 2
  {
  }

  /** Writing one more bit above all the others sets it and keeps those. */
  lemma OrBitAbove(m: nat, r: nat, bit: nat)
    requires m < Pow(2, r) && bit < 2
    ensures OrBit(m, r, bit) < Pow(2, r + 1)
    ensures Bit(OrBit(m, r, bit), r) == bit
    ensures forall k: nat :: k < r ==> Bit(OrBit(m, r, bit), k) == Bit(m, k)
  {
    DivModUnique(0, Pow(2, r), m);
    if bit == 1 {
      DivAdd(m, Pow(2, r), 1);
      forall k: nat | k < r
        ensures Bit(OrBit(m, r, bit), k) == Bit(m, k)
      {
        LowerBitKept(m, r, k);
      }
    }
  }

  /** A number below 2^(k+1) is its bit k and the rest, and the rest has the same lower bits. */
  lemma LowBits(m: nat, k: nat)
    requires m < Pow(2, k + 1)
    ensures m == Bit(m, k) * Pow(2, k) + m % Pow(2, k)
    ensures 0 <= m % Pow(2, k) < Pow(2, k)
    ensures forall r :: 0 <= r < k ==> Bit(m % Pow(2, k), r) == Bit(m, r)
  {
    var p := Pow(2, k);
    if m < p {
      DivModUnique(0, p, m);
    } else {
      DivModUnique(1, p, m - p);
      forall r | 0 <= r < k
        ensures Bit(m % p, r) == Bit(m, r)
      {
        LowerBitKept(m - p, k, r);
      }
    }
  }

  /** Numbers of the same width with the same bits are equal. */
  lemma {:induction false} SameBits(m: nat, n: nat, width: nat)
    requires m < Pow(2, width) && n < Pow(2, width)
    requires forall k: nat :: k < width ==> Bit(m, k) == Bit(n, k)
    ensures m == n
  {
    if width > 0 {
      var k := width - 1;
      LowBits(m, k);
      LowBits(n, k);
      SameBits(m % Pow(2, k), n % Pow(2, k), k);
      assert Bit(m, k) == Bit(n, k);
    }
  }
}
