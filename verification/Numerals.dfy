/** Big-endian numerals in a base, and their values. */
module Numerals {

  function Pow(b: nat, e: nat): (r: nat)
    ensures b >= 1 ==> r >= 1
  {
    if e == 0 then 1 else b * Pow(b, e - 1)
  }

  ghost predicate IsNumeral(s: seq<int>, b: nat) {
    forall i :: 0 <= i < |s| ==> 0 <= s[i] < b
  }

  /** The number that s denotes in base b, most significant digit first. */
  function Val(s: seq<int>, b: nat): int {
    if s == [] then 0 else Val(s[..|s| - 1], b) * b + s[|s| - 1]
  }

  /** The shortest numeral of n. */
  function Digits(n: nat, b: nat): (s: seq<int>)
    requires b >= 2
    ensures IsNumeral(s, b)
    decreases n
  {
    if n == 0 then [] else Digits(n / b, b) + [n % b]
  }

  function StripZeros(s: seq<int>): seq<int> {
    if s == [] || s[0] != 0 then s else StripZeros(s[1..])
  }

  lemma ValNone(b: nat)
    ensures Val([], b) == 0
  {
  }

  lemma ValSnoc(s: seq<int>, d: int, b: nat)
    ensures Val(s + [d], b) == Val(s, b) * b + d
  {
    assert (s + [d])[..|s|] == s;
  }

  lemma DigitsNone(b: nat)
    requires b >= 2
    ensures Digits(0, b) == []
  {
  }

  lemma QuotientSmaller(n: nat, b: nat, q: nat, r: nat)
    requires b >= 2 && n > 0 && n == q * b + r
    ensures q < n
  {
    if q >= n {
      MulMono(2, b, q);
      assert false;
    }
  }

  lemma DigitsStep(n: nat, b: nat) returns (q: nat, r: nat)
    requires b >= 2 && n > 0
    ensures q < n && r < b && n == q * b + r && Digits(n, b) == Digits(q, b) + [r]
  {
    q, r := n / b, n % b;
    DivModParts(n, b);
    QuotientSmaller(n, b, q, r);
  }

  lemma {:induction false} ValOfDigits(n: nat, b: nat)
    requires b >= 2
    ensures Val(Digits(n, b), b) == n
    ensures n > 0 ==> Digits(n, b) != [] && Digits(n, b)[0] != 0
    decreases n
  {
    hide Val, Digits;
    DigitsNone(b);
    if n == 0 {
      ValNone(b);
    } else {
      var q, r := DigitsStep(n, b);
      ValOfDigits(q, b);
      ValSnoc(Digits(q, b), r, b);
    }
  }

  lemma {:induction false} ValBound(s: seq<int>, b: nat)
    requires IsNumeral(s, b)
    ensures 0 <= Val(s, b) < Pow(b, |s|)
  {
    if s != [] {
      var front := s[..|s| - 1];
      ValBound(front, b);
      ShiftBound(Val(front, b), Pow(b, |front|), b, s[|s| - 1]);
    }
  }

  lemma {:induction false} ZerosVal(s: seq<int>, b: nat)
    requires forall i :: 0 <= i < |s| ==> s[i] == 0
    ensures Val(s, b) == 0
  {
    if s != [] {
      ZerosVal(s[..|s| - 1], b);
    }
  }

  lemma MulMono(x: int, y: int, k: nat)
    requires x <= y
    ensures x * k <= y * k && k * x <= k * y
  {
  }

  lemma {:induction false} ValPositive(s: seq<int>, b: nat)
    requires b >= 2 && IsNumeral(s, b) && s != [] && s[0] != 0
    ensures Val(s, b) > 0
  {
    var front, last := s[..|s| - 1], s[|s| - 1];
    assert last in s && s[0] in s;
    if front != [] {
      ValPositive(front, b);
      MulMono(1, Val(front, b), b);
    }
  }

  lemma ShiftBound(v: nat, p: nat, b: nat, d: nat)
    requires v < p && d < b
    ensures 0 <= v * b + d < b * p
  {
    MulMono(v + 1, p, b);
  }

  lemma DivModParts(n: nat, b: nat)
    requires b > 0
    ensures n == n / b * b + n % b && (n / b == 0 ==> n % b == n)
  {
  }

  /** A numeral without leading zeros is the shortest one of its value. */
  lemma {:induction false} DigitsOfVal(s: seq<int>, b: nat)
    requires b >= 2 && IsNumeral(s, b) && (s == [] || s[0] != 0)
    ensures Val(s, b) >= 0 && Digits(Val(s, b), b) == s
  {
    if s != [] {
      var front, last := s[..|s| - 1], s[|s| - 1];
      assert last in s;
      DigitsOfVal(front, b);
      ValPositive(s, b);
      DivModUnique(Val(front, b), b, last);
      assert s == front + [last];
    }
  }

  lemma DivModUnique(q: nat, b: nat, r: nat)
    requires b > 0 && r < b
    ensures (q * b + r) / b == q && (q * b + r) % b == r
  {
    var n := q * b + r;
    assert n == (n / b) * b + n % b;
    if n / b > q {
      MulMono(q + 1, n / b, b);
    } else if n / b < q {
      MulMono(n / b + 1, q, b);
    }
  }

  lemma {:induction false} ValPrepend(d: int, s: seq<int>, b: nat)
    ensures Val([d] + s, b) == d * Pow(b, |s|) + Val(s, b)
  {
    hide Val;
    if s == [] {
      assert [] + [d] == [d] + s;
      ValNone(b);
      ValSnoc([], d, b);
    } else {
      var front, last := s[..|s| - 1], s[|s| - 1];
      ValPrepend(d, front, b);
      assert s == front + [last] && [d] + s == ([d] + front) + [last];
      ValSnoc(front, last, b);
      ValSnoc([d] + front, last, b);
      Distribute(d, Pow(b, |front|), Val(front, b), b);
    }
  }

  lemma {:induction false} ValConcat(s: seq<int>, t: seq<int>, b: nat)
    ensures Val(s + t, b) == Val(s, b) * Pow(b, |t|) + Val(t, b)
  {
    if t == [] {
      assert s + t == s;
    } else {
      var front, last := t[..|t| - 1], t[|t| - 1];
      ValConcat(s, front, b);
      assert (s + t)[..|s + t| - 1] == s + front;
      Distribute(Val(s, b), Pow(b, |front|), Val(front, b), b);
    }
  }

  lemma Distribute(x: int, p: int, y: int, b: int)
    ensures (x * p + y) * b == x * (b * p) + y * b
  {
  }

  lemma {:induction false} StripZerosVal(s: seq<int>, b: nat)
    ensures Val(StripZeros(s), b) == Val(s, b)
  {
    if s != [] && s[0] == 0 {
      ValPrepend(0, s[1..], b);
      assert s == [0] + s[1..];
      StripZerosVal(s[1..], b);
    }
  }

  lemma {:induction false} StripZerosShape(s: seq<int>)
    ensures |StripZeros(s)| <= |s| && StripZeros(s) == s[|s| - |StripZeros(s)|..]
    ensures StripZeros(s) == [] || StripZeros(s)[0] != 0
    ensures forall b: nat :: IsNumeral(s, b) ==> IsNumeral(StripZeros(s), b)
    ensures StripZeros(s) == s <==> s == [] || s[0] != 0
  {
    if s != [] && s[0] == 0 {
      StripZerosShape(s[1..]);
    }
  }

  // ---------- comparing powers of two bases ----------

  lemma MulAssoc(x: int, y: int, z: int)
    ensures x * (y * z) == (x * y) * z
  {
  }

  lemma {:induction false} PowAdd(b: nat, m: nat, n: nat)
    ensures Pow(b, m + n) == Pow(b, m) * Pow(b, n)
  {
    if m > 0 {
      PowAdd(b, m - 1, n);
      MulAssoc(b, Pow(b, m - 1), Pow(b, n));
    }
  }

  lemma {:induction false} PowMul(b: nat, m: nat, k: nat)
    ensures Pow(b, m * k) == Pow(Pow(b, m), k)
  {
    if k > 0 {
      PowMul(b, m, k - 1);
      PowAdd(b, m, m * (k - 1));
      assert m * k == m + m * (k - 1);
    }
  }

  lemma {:induction false} PowMonoExponent(b: nat, m: nat, n: nat)
    requires b >= 1 && m <= n
    ensures 1 <= Pow(b, m) <= Pow(b, n)
    decreases n
  {
    if n > 0 {
      if m == n {
        PowMonoExponent(b, m - 1, n - 1);
      } else {
        PowMonoExponent(b, m, n - 1);
      }
      MulMono(1, b, Pow(b, n - 1));
    }
  }

  lemma {:induction false} PowMonoBase(a: nat, b: nat, k: nat)
    ensures a <= b ==> Pow(a, k) <= Pow(b, k)
    ensures a < b && k > 0 ==> Pow(a, k) < Pow(b, k)
  {
    if k > 0 && a <= b {
      PowMonoBase(a, b, k - 1);
      MulMono(Pow(a, k - 1), Pow(b, k - 1), a);
      if a < b {
        PowMonoExponent(b, 0, k - 1);
        MulMono(a + 1, b, Pow(b, k - 1));
      }
    }
  }
}
