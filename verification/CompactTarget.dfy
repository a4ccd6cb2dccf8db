/** Compact difficulty targets: a length byte and the three leading bytes of a number. */
module CompactTarget {
  import opened Numerals
  import opened Bignum

  type Uint32 = n: nat | n < 0x1_0000_0000

  /** The i-th byte of s, or zero when s is shorter. */
  function At(s: seq<int>, i: nat): int {
    if i < |s| then s[i] else 0
  }

  /** Length and three leading bytes, put into 32 bits: a length above 255 would lose its high bits. */
  function CompactOf(n: int): Uint32 {
    var s := MpiBody(n);
    assert forall i: nat :: 0 <= At(s, i) < 256;
    |s| % 256 * 0x100_0000 + At(s, 0) * 0x1_0000 + At(s, 1) * 0x100 + At(s, 2)
  }

  /** The bytes that a compact value stands for: those that its length leaves room for, then zeros. */
  function BodyOf(c: Uint32): (s: seq<int>)
    ensures |s| == c / 0x100_0000
  {
    var nSize := c / 0x100_0000;
    var lead := [c / 0x1_0000 % 256, c / 0x100 % 256, c % 256];
    seq(nSize, i => if 0 <= i < 3 then lead[i] else 0)
  }

  function FromCompact(c: Uint32): int {
    FromMpiBody(BodyOf(c))
  }

  method SetCompact(nCompact: Uint32) returns (bn: int)
    ensures bn == FromCompact(nCompact)
  {
    var nSize := nCompact / 0x100_0000;
    var vch := new int[4 + nSize](_ => 0);
    vch[3] := nSize;
    if nSize >= 1 { vch[4] := nCompact / 0x1_0000 % 256; }
    if nSize >= 2 { vch[5] := nCompact / 0x100 % 256; }
    if nSize >= 3 { vch[6] := nCompact % 256; }
    assert vch[4..] == BodyOf(nCompact);
    bn := FromMpiBody(vch[4..]);
  }

  method GetCompact(bn: int) returns (nCompact: Uint32)
    ensures nCompact == CompactOf(bn)
  {
    var vch := MpiBody(bn);
    var nSize := |vch|;
    var acc := nSize % 256 * 0x100_0000;
    if nSize >= 1 { acc := acc + vch[0] * 0x1_0000; }
    if nSize >= 2 { acc := acc + vch[1] * 0x100; }
    if nSize >= 3 { acc := acc + vch[2]; }
    assert forall i: nat :: 0 <= At(vch, i) < 256;
    nCompact := acc;
  }

  // ---------- what is kept ----------

  function Zeros(k: nat): seq<int> {
    seq(k, _ => 0)
  }

  /** n with all but its three leading bytes cleared. */
  ghost function Truncated(n: nat): nat {
    var k := |Padded(n)|;
    if k <= 3 then n
    else n / Pow(256, k - 3) * Pow(256, k - 3)
  }

  /** The three leading bytes of a longer number are at least 2^15, and the rest is less than one unit of them. */
  lemma Leading(n: nat)
    requires |Padded(n)| > 3
    ensures var s := Padded(n); var p := Pow(256, |s| - 3);
      && n / p == Val(s[..3], 256) && 0 <= n % p < p
      && 0x8000 <= Val(s[..3], 256) < 0x80_0000
  {
    var s := Padded(n);
    var top, rest := s[..3], s[3..];
    PaddedTop(n);
    assert s == top + rest;
    ValConcat(top, rest, 256);
    ValBound(rest, 256);
    ThreeBytes(s[0], s[1], s[2]);
    assert top == [s[0], s[1], s[2]];
    DivModUnique(Val(top, 256), Pow(256, |rest|), Val(rest, 256));
  }

  lemma ThreeBytes(a: int, b: int, c: int)
    ensures Val([a, b, c], 256) == a * 0x1_0000 + b * 0x100 + c
  {
    assert [a, b, c][..2] == [a, b] && [a, b][..1] == [a] && [a][..0] == [];
    assert Val([a], 256) == a;
    assert Val([a, b], 256) == a * 256 + b;
  }

  /** The bytes that survive are the leading three, behind the same length. */
  lemma BodyOfCompact(n: nat)
    requires |Padded(n)| <= 255
    ensures var s := Padded(n);
      BodyOf(CompactOf(n)) == if |s| <= 3 then s else s[..3] + Zeros(|s| - 3)
  {
    hide Padded, BodyOf, At, Unpacked, Zeros;
    PaddedTop(n);
    var s := Padded(n);
    assert MpiBody(n) == s;
    BytesAt(s);
    PackedBody(|s|, At(s, 0), At(s, 1), At(s, 2));
    UnpackedBytes(s);
  }

  /** A length, its first three bytes, and zeros. */
  function Unpacked(k: nat, a: int, b: int, c: int): seq<int> {
    seq(k, i => if i == 0 then a else if i == 1 then b else if i == 2 then c else 0)
  }

  lemma PackedBody(k: nat, a: nat, b: nat, c: nat)
    requires k < 256 && a < 256 && b < 256 && c < 256
    ensures BodyOf(k * 0x100_0000 + a * 0x1_0000 + b * 0x100 + c) == Unpacked(k, a, b, c)
  {
    Unpack(k, a, b, c);
  }

  lemma UnpackedBytes(s: seq<int>)
    ensures Unpacked(|s|, At(s, 0), At(s, 1), At(s, 2)) == if |s| <= 3 then s else s[..3] + Zeros(|s| - 3)
  {
  }

  lemma BytesAt(s: seq<int>)
    requires IsNumeral(s, 256)
    ensures forall i: nat :: 0 <= At(s, i) < 256
  {
  }

  lemma Unpack(k: nat, a: nat, b: nat, c: nat)
    requires k < 256 && a < 256 && b < 256 && c < 256
    ensures var x := k * 0x100_0000 + a * 0x1_0000 + b * 0x100 + c;
      x / 0x100_0000 == k && x / 0x1_0000 % 256 == a && x / 0x100 % 256 == b && x % 256 == c
  {
    DivModUnique(k, 0x100_0000, a * 0x1_0000 + b * 0x100 + c);
    DivModUnique(k * 256 + a, 0x1_0000, b * 0x100 + c);
    DivModUnique(k, 256, a);
    DivModUnique(k * 0x1_0000 + a * 0x100 + b, 0x100, c);
    DivModUnique(k * 256 + a, 256, b);
  }

  /** Decoding the compact form gives the number with its lower bytes cleared. */
  lemma DecodedIsTruncated(n: nat)
    requires |Padded(n)| <= 255
    ensures FromCompact(CompactOf(n)) == Truncated(n)
  {
    var s := Padded(n);
    PaddedTop(n);
    BodyOfCompact(n);
    if |s| > 3 {
      Leading(n);
      ValConcat(s[..3], Zeros(|s| - 3), 256);
      ZerosVal(Zeros(|s| - 3), 256);
    }
  }

  /** The decoded target is never above the number and loses less than one part in 2^15. */
  lemma LossBound(n: nat)
    requires |Padded(n)| <= 255
    ensures FromCompact(CompactOf(n)) <= n
    ensures n > 0 ==> (n - FromCompact(CompactOf(n))) * 0x8000 < n
  {
    DecodedIsTruncated(n);
    if |Padded(n)| > 3 {
      Leading(n);
      var p := Pow(256, |Padded(n)| - 3);
      DivModParts(n, p);
      MulMono(0x8000, n / p, p);
    }
  }

  // ---------- order and idempotence ----------

  /** The number of bytes brackets the number. */
  lemma SizeBounds(n: nat)
    requires n > 0
    ensures var k := |Padded(n)|; k >= 1 && n < 128 * Pow(256, k - 1) && (k >= 2 ==> 128 * Pow(256, k - 2) <= n)
  {
    hide Padded;
    PaddedTop(n);
    var s := Padded(n);
    var rest := s[1..];
    assert s == [s[0]] + rest;
    ValPrepend(s[0], rest, 256);
    ValBound(rest, 256);
    TopByte(s[0], Pow(256, |rest|), Val(rest, 256));
    if |s| >= 2 {
      var rest2 := rest[1..];
      assert rest == [rest[0]] + rest2;
      ValPrepend(rest[0], rest2, 256);
      ValBound(rest2, 256);
      SecondByte(s[0], rest[0], Pow(256, |rest2|), Val(rest2, 256));
    }
  }

  lemma TopByte(d: nat, p: nat, v: nat)
    requires d < 128 && v < p
    ensures d * p + v < 128 * p
  {
    MulMono(d + 1, 128, p);
  }

  lemma SecondByte(d: nat, e: nat, p: nat, v: nat)
    requires d > 0 || e >= 128
    ensures 128 * p <= d * (256 * p) + (e * p + v)
  {
    if d > 0 {
      MulMono(1, d, 256 * p);
    } else {
      MulMono(128, e, p);
    }
  }

  lemma SizeMonotone(n: nat, m: nat)
    requires n <= m
    ensures |Padded(n)| <= |Padded(m)|
  {
    hide Padded, Pow, Val;
    PaddedTop(n);
    PaddedTop(m);
    if n > 0 && |Padded(n)| > |Padded(m)| {
      SizeBounds(n);
      SizeBounds(m);
      PowMonoExponent(256, |Padded(m)| - 1, |Padded(n)| - 2);
    }
  }

  lemma TruncatedMonotone(n: nat, m: nat)
    requires n <= m && |Padded(m)| <= 255
    ensures Truncated(n) <= Truncated(m)
  {
    hide Padded, Pow;
    SizeMonotone(n, m);
    var kn, km := |Padded(n)|, |Padded(m)|;
    if km > 3 && kn == km {
      var p := Pow(256, km - 3);
      DivMonotone(n, m, p);
      MulMono(n / p, m / p, p);
    } else {
      LossBound(n);
      DecodedIsTruncated(n);
      if km > 3 {
        LongerIsLarger(n, m);
      }
    }
  }

  /** Three leading bytes of a longer number outweigh all of a shorter one. */
  lemma LongerIsLarger(n: nat, m: nat)
    requires |Padded(n)| < |Padded(m)| && |Padded(m)| > 3
    ensures n <= Truncated(m)
  {
    hide Padded;
    var kn, km := |Padded(n)|, |Padded(m)|;
    var p := Pow(256, km - 3);
    Leading(m);
    MulMono(0x8000, m / p, p);
    if n > 0 {
      SizeBounds(n);
      PowMonoExponent(256, kn - 1, km - 2);
    }
  }

  lemma DivMonotone(n: nat, m: nat, p: nat)
    requires n <= m && p > 0
    ensures n / p <= m / p
  {
    DivModParts(n, p);
    DivModParts(m, p);
    if n / p > m / p {
      MulMono(m / p + 1, n / p, p);
    }
  }

  /** Compacting keeps the order of targets. */
  lemma CompactMonotone(n: nat, m: nat)
    requires n <= m && |Padded(m)| <= 255
    ensures FromCompact(CompactOf(n)) <= FromCompact(CompactOf(m))
  {
    SizeMonotone(n, m);
    DecodedIsTruncated(n);
    DecodedIsTruncated(m);
    TruncatedMonotone(n, m);
  }

  /** Once compacted, a target stays what it is. */
  lemma CompactIdempotent(n: nat)
    requires |Padded(n)| <= 255
    ensures CompactOf(FromCompact(CompactOf(n))) == CompactOf(n)
  {
    DecodedIsTruncated(n);
    PaddedTop(n);
    var s := Padded(n);
    if |s| > 3 {
      var t := s[..3] + Zeros(|s| - 3);
      BodyOfCompact(n);
      PaddedUnique(t);
      assert MpiBody(Val(t, 256)) == t;
      assert forall i: nat :: i < 3 ==> At(t, i) == At(s, i);
    }
  }

  /** A target clamped to the limit decodes to at most the limit. */
  lemma ClampedStaysBelow(n: nat, limit: nat)
    requires |Padded(limit)| <= 255
    ensures var c := if n > limit then limit else n;
      FromCompact(CompactOf(c)) <= FromCompact(CompactOf(limit)) <= limit
  {
    CompactMonotone(if n > limit then limit else n, limit);
    LossBound(limit);
  }
}
