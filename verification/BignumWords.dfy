/** Moving 64-bit and 256-bit integers into and out of big numbers, byte by byte (src/bignum.h:165-292). */
module BignumWords {
  import opened Common
  import opened Numerals
  import opened Bignum

  /** n's lowest `width` bytes, most significant first. */
  function Fixed(n: nat, width: nat): (s: seq<int>)
    ensures |s| == width && IsNumeral(s, 256)
  {
    if width == 0 then [] else Fixed(n / 256, width - 1) + [n % 256]
  }

  lemma {:induction false} FixedVal(n: nat, width: nat)
    requires n < Pow(256, width)
    ensures Val(Fixed(n, width), 256) == n
  {
    if width > 0 {
      DivModParts(n, 256);
      SmallerQuotient(n, Pow(256, width - 1));
      FixedVal(n / 256, width - 1);
      assert Fixed(n, width)[..width - 1] == Fixed(n / 256, width - 1);
    }
  }

  lemma SmallerQuotient(n: nat, p: nat)
    requires n < 256 * p
    ensures n / 256 < p
  {
  }

  /** Bytes without leading zeros, with the sign in a top bit that is free: in an extra byte where none is. */
  function SignedBody(s: seq<int>, fNegative: bool): seq<int> {
    var t := StripZeros(s);
    if t == [] then []
    else if t[0] >= 128 then [if fNegative then 128 else 0] + t
    else if fNegative then t[0 := t[0] + 128] else t
  }

  lemma SignedBodyMeans(s: seq<int>, fNegative: bool)
    requires IsNumeral(s, 256)
    ensures FromMpiBody(SignedBody(s, fNegative)) == if fNegative then -Val(s, 256) else Val(s, 256)
  {
    hide Val, Pow, StripZeros, FromMpiBody;
    StripZerosVal(s, 256);
    StripZerosShape(s);
    var t := StripZeros(s);
    if t == [] {
      ValNone(256);
      EmptyBody();
    } else if t[0] >= 128 {
      ValPrepend(0, t, 256);
      SignBit([0] + t);
      assert ([0] + t)[0 := 128] == [128] + t;
    } else {
      SignBit(t);
    }
  }

  lemma EmptyBody()
    ensures FromMpiBody([]) == 0
  {
  }

  /** The top bit of the first byte, if free, is the sign. */
  lemma SignBit(t: seq<int>)
    requires t != [] && 0 <= t[0] < 128
    ensures FromMpiBody(t) == Val(t, 256) && FromMpiBody(t[0 := t[0] + 128]) == -Val(t, 256)
  {
    hide Val;
    var s := t[0 := t[0] + 128];
    assert s[0 := s[0] - 128] == t;
  }

  lemma {:induction false} StripSnoc(s: seq<int>, c: int)
    ensures StripZeros(s + [c]) == if StripZeros(s) == [] then (if c == 0 then [] else [c]) else StripZeros(s) + [c]
  {
    if s == [] {
      assert s + [c] == [c];
    } else if s[0] == 0 {
      assert (s + [c])[1..] == s[1..] + [c];
      StripSnoc(s[1..], c);
    }
  }

  /** One more byte, as both conversion loops emit it. */
  method EmitByte(c0: int, fNegative: bool, fLeadingZeroes0: bool, p0: seq<int>, ghost s: seq<int>)
    returns (fLeadingZeroes: bool, p: seq<int>)
    requires 0 <= c0 < 256
    requires p0 == SignedBody(s, fNegative) && (fLeadingZeroes0 <==> StripZeros(s) == [])
    ensures p == SignedBody(s + [c0], fNegative) && (fLeadingZeroes <==> StripZeros(s + [c0]) == [])
  {
    StripSnoc(s, c0);
    fLeadingZeroes, p := fLeadingZeroes0, p0;
    var c := c0;
    if fLeadingZeroes {
      if c == 0 {
        return;
      }
      if c >= 128 {
        p := p + [if fNegative then 128 else 0];
      } else if fNegative {
        c := c + 128;
      }
      fLeadingZeroes := false;
    }
    p := p + [c];
  }

  // ---------- signed 64-bit integers ----------

  const TWO_63: int := 0x8000_0000_0000_0000

  lemma Powers()
    ensures Pow(256, 7) == 0x100_0000_0000_0000 && Pow(256, 8) == 2 * TWO_63
  {
    assert Pow(256, 2) == 0x1_0000;
    assert Pow(256, 4) == 0x1_0000_0000 by { PowAdd(256, 2, 2); }
    PowAdd(256, 4, 3);
    assert Pow(256, 3) == 0x100_0000;
    PowAdd(256, 4, 4);
  }

  lemma ScaledQuotient(c: nat, p: nat, r: nat, q: nat)
    requires r < p && q > 0
    ensures p * q > 0 && (c * p + r) * q / (p * q) == c
    ensures (c * p + r) * q % (p * q) == r * q
  {
    MulMono(r + 1, p, q);
    assert (c * p + r) * q == c * (p * q) + r * q by {
      MulAssoc(c, p, q);
    }
    DivModUnique(c, p * q, r * q);
  }

  lemma QuotientBound(rem: nat, p: nat)
    requires p > 0 && rem < 256 * p
    ensures rem / p < 256
  {
    DivModParts(rem, p);
    if rem / p >= 256 {
      MulMono(256, rem / p, p);
    }
  }

  /** What a left shift by one byte leaves of the top byte and the rest. */
  lemma ShiftByte(rem: nat, p: nat, q: nat, top: nat, full: nat)
    requires p > 0 && q > 0 && rem < 256 * p && top == p * q && full == p * (256 * q)
    ensures top > 0 && rem * q / top == rem / p < 256
    ensures full > 0 && rem * (256 * q) % full == rem % p * (256 * q)
  {
    DivModParts(rem, p);
    QuotientBound(rem, p);
    ScaledQuotient(rem / p, p, rem % p, q);
    ScaledQuotient(rem / p, p, rem % p, 256 * q);
  }

  /** (n >> 56) & 0xff */
  function TopByte(n: nat): (c: nat)
    ensures c < 256
  {
    n / 0x100_0000_0000_0000 % 256
  }

  /** n << 8, in 64 bits */
  function ShiftLeft(n: nat): nat {
    n * 256 % (2 * TWO_63)
  }

  /** The eight bytes, peeled off the top by shifting. */
  method SetInt64(sn: int) returns (bn: int)
    requires -TWO_63 <= sn < TWO_63
    ensures bn == sn
  {
    hide Pow, Val, SignedBody, StripZeros, Peeled, TopByte, ShiftLeft, FromMpiBody;
    Powers();
    var n: nat, fNegative;
    if sn < 0 {
      n := -(sn + 1);
      n := n + 1;
      fNegative := true;
    } else {
      n, fNegative := sn, false;
    }
    ghost var magnitude := n;
    ghost var rem: nat := n;
    ghost var seen: seq<int> := [];
    var p := [];
    var fLeadingZeroes := true;
    StartBytes(magnitude, fNegative);
    for i := 0 to 8
      invariant Peeled(magnitude, n, rem, seen, i)
      invariant p == SignedBody(seen, fNegative) && (fLeadingZeroes <==> StripZeros(seen) == [])
    {
      PeelByte(magnitude, n, rem, seen, i);
      var c := TopByte(n);
      fLeadingZeroes, p := EmitByte(c, fNegative, fLeadingZeroes, p, seen);
      seen := seen + [c];
      rem := rem % Pow(256, 7 - i);
      n := ShiftLeft(n);
    }
    AllPeeled(magnitude, n, rem, seen);
    SignedBodyMeans(seen, fNegative);
    bn := FromMpiBody(p);
  }

  /** After i bytes: those seen and the rest make up the magnitude, and n is the rest shifted to the top. */
  ghost predicate Peeled(magnitude: nat, n: nat, rem: nat, seen: seq<int>, i: nat) {
    && i <= 8 && |seen| == i && IsNumeral(seen, 256)
    && rem < Pow(256, 8 - i) && n == rem * Pow(256, i)
    && magnitude == Val(seen, 256) * Pow(256, 8 - i) + rem
  }

  lemma StartBytes(magnitude: nat, fNegative: bool)
    requires magnitude < Pow(256, 8)
    ensures Peeled(magnitude, magnitude, magnitude, [], 0)
    ensures SignedBody([], fNegative) == [] && StripZeros([]) == []
  {
    hide Pow;
    ValNone(256);
    assert Pow(256, 0) == 1 by { PowZero(); }
  }

  lemma PowZero()
    ensures Pow(256, 0) == 1
  {
  }

  lemma PowNext(k: nat)
    ensures Pow(256, k + 1) == 256 * Pow(256, k)
  {
  }

  lemma PeelByte(magnitude: nat, n: nat, rem: nat, seen: seq<int>, i: nat)
    requires Peeled(magnitude, n, rem, seen, i) && i < 8
    ensures var c := TopByte(n);
      Peeled(magnitude, ShiftLeft(n), rem % Pow(256, 7 - i), seen + [c], i + 1)
  {
    hide Pow, Val, TopByte, ShiftLeft;
    PowNext(7 - i);
    PeelShift(rem, i);
    ValSnoc(seen, rem / Pow(256, 7 - i), 256);
    PeelValue(magnitude, Val(seen, 256), Pow(256, 7 - i), rem);
  }

  lemma PeelShift(rem: nat, i: nat)
    requires i < 8 && rem < 256 * Pow(256, 7 - i)
    ensures TopByte(rem * Pow(256, i)) == rem / Pow(256, 7 - i)
    ensures ShiftLeft(rem * Pow(256, i)) == rem % Pow(256, 7 - i) * Pow(256, i + 1)
  {
    hide Pow;
    Powers();
    var p, q := Pow(256, 7 - i), Pow(256, i);
    PowNext(i);
    PowAdd(256, 7 - i, i);
    PowAdd(256, 7 - i, i + 1);
    ShiftWord(rem * q, rem, p, q);
  }

  lemma ShiftWord(x: nat, rem: nat, p: nat, q: nat)
    requires p > 0 && q > 0 && rem < 256 * p && x == rem * q
    requires p * q == 0x100_0000_0000_0000 && p * (256 * q) == 2 * TWO_63
    ensures TopByte(x) == rem / p && ShiftLeft(x) == rem % p * (256 * q)
  {
    ShiftByte(rem, p, q, p * q, p * (256 * q));
    MulAssoc(rem, 256, q);
    assert x * 256 == rem * (256 * q);
  }

  lemma PeelValue(magnitude: int, v: int, p: nat, rem: nat)
    requires p > 0 && magnitude == v * (256 * p) + rem
    ensures magnitude == (v * 256 + rem / p) * p + rem % p
  {
    DivModParts(rem, p);
    MulAssoc(v, 256, p);
  }

  lemma AllPeeled(magnitude: nat, n: nat, rem: nat, seen: seq<int>)
    requires Peeled(magnitude, n, rem, seen, 8)
    ensures Val(seen, 256) == magnitude && IsNumeral(seen, 256)
  {
    PowZero();
  }

  // ---------- unsigned 256-bit integers ----------

  method SetUint256(n: nat) returns (bn: int)
    requires n < Pow(256, 32)
    ensures bn == n
  {
    hide Pow, Val, SignedBody, StripZeros;
    var bytes := Fixed(n, 32);
    var p := [];
    var fLeadingZeroes := true;
    NoBytes();
    assert bytes[..0] == [];
    for i := 0 to 32
      invariant p == SignedBody(bytes[..i], false) && (fLeadingZeroes <==> StripZeros(bytes[..i]) == [])
    {
      assert bytes[..i + 1] == bytes[..i] + [bytes[i]];
      fLeadingZeroes, p := EmitByte(bytes[i], false, fLeadingZeroes, p, bytes[..i]);
    }
    assert bytes[..32] == bytes;
    FixedVal(n, 32);
    SignedBodyMeans(bytes, false);
    bn := FromMpiBody(p);
  }

  lemma NoBytes()
    ensures SignedBody([], false) == [] && StripZeros([]) == []
  {
  }

  /** The low 32 bytes of the magnitude; the sign and anything above are lost. */
  method GetUint256(bn: int) returns (n: nat)
    ensures n == AbsValue(bn) % Pow(256, 32)
    ensures AbsValue(bn) < Pow(256, 32) ==> n == AbsValue(bn)
  {
    hide Pow, Val, IsNumeral, Padded, MpiBody;
    var vch := MpiBody(bn);
    PaddedTop(bn);
    SignCleared(bn);
    if |vch| > 0 {
      vch := vch[0 := vch[0] % 128];
    }
    n := LowBytes(vch);
    RemainderOfSmall(AbsValue(bn));
  }

  lemma SignCleared(bn: int)
    ensures var b := MpiBody(bn); (if |b| > 0 then b[0 := b[0] % 128] else b) == Padded(bn)
    ensures IsNumeral(Padded(bn), 256)
  {
    PaddedTop(bn);
  }

  lemma RemainderOfSmall(m: nat)
    ensures m < Pow(256, 32) ==> m % Pow(256, 32) == m
  {
    hide Pow;
    if m < Pow(256, 32) {
      DivModUnique(0, Pow(256, 32), m);
    }
  }

  method LowBytes(vch: seq<int>) returns (n: nat)
    requires IsNumeral(vch, 256)
    ensures 0 <= Val(vch, 256) && n == Val(vch, 256) % Pow(256, 32)
  {
    hide Pow, Val;
    n := 0;
    var i: nat := 0;
    var j := |vch| - 1;
    ValNone(256);
    assert vch[j + 1..] == [];
    while i < 32 && j >= 0
      invariant 0 <= i <= 32 && -1 <= j < |vch| && i + j == |vch| - 1
      invariant n == Val(vch[j + 1..], 256)
    {
      ValPrepend(vch[j], vch[j + 1..], 256);
      assert vch[j..] == [vch[j]] + vch[j + 1..];
      NonNegativeTerm(vch[j], i);
      n := n + vch[j] * Pow(256, i);
      i, j := i + 1, j - 1;
    }
    SuffixIsRemainder(vch, i, 32);
  }

  lemma NonNegativeTerm(c: nat, i: nat)
    ensures c * Pow(256, i) >= 0
  {
  }

  /** The last bytes of a numeral: all of them, or as many as make up the remainder. */
  lemma SuffixIsRemainder(s: seq<int>, i: nat, width: nat)
    requires IsNumeral(s, 256) && i <= width && i <= |s| && (i < width ==> i == |s|)
    ensures 0 <= Val(s, 256) && Val(s[|s| - i..], 256) == Val(s, 256) % Pow(256, width)
  {
    hide Pow, Val;
    var a, b := s[..|s| - i], s[|s| - i..];
    assert s == a + b;
    ValBound(a, 256);
    ValBound(b, 256);
    ValBound(s, 256);
    PowMonoExponent(256, i, width);
    if i < width {
      assert b == s;
      DivModUnique(0, Pow(256, width), Val(b, 256));
    } else {
      ValConcat(a, b, 256);
      DivModUnique(Val(a, 256), Pow(256, width), Val(b, 256));
    }
  }

  /** A 256-bit integer comes back unchanged. */
  method RoundTrip256(n: nat) returns (r: nat)
    requires n < Pow(256, 32)
    ensures r == n
  {
    var bn := SetUint256(n);
    r := GetUint256(bn);
  }
}
