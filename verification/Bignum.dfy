/**
 * Big numbers as byte strings: the length-prefixed sign-and-magnitude format
 * (OpenSSL's MPI) through which vectors and compact targets are converted.
 */
module Bignum {
  import opened Common
  import opened Numerals

  type Byte = n: nat | n < 256

  /** The bytes of n's magnitude, big-endian, no leading zero. */
  function Magnitude(n: int): seq<int> {
    Digits(AbsValue(n), 256)
  }

  /** With room for the sign: a byte more when the highest bit is taken. */
  function Padded(n: int): (s: seq<int>)
    ensures IsNumeral(s, 256)
  {
    var m := Magnitude(n);
    if m != [] && m[0] >= 128 then [0] + m else m
  }

  /** The bytes after the four length bytes. The sign is the top bit of the first one. */
  function MpiBody(n: int): (s: seq<int>)
    ensures IsNumeral(s, 256)
  {
    PaddedTop(n);
    var p := Padded(n);
    if n < 0 then p[0 := p[0] + 128] else p
  }

  function FromMpiBody(s: seq<int>): int {
    if s == [] then 0
    else if s[0] >= 128 then -Val(s[0 := s[0] - 128], 256)
    else Val(s, 256)
  }

  /** The padded bytes denote the magnitude, keep the top bit free and waste no byte. */
  lemma PaddedTop(n: int)
    ensures Val(Padded(n), 256) == AbsValue(n)
    ensures Padded(n) == [] <==> n == 0
    ensures n != 0 ==> Padded(n)[0] < 128
    ensures n != 0 && Padded(n)[0] == 0 ==> |Padded(n)| >= 2 && Padded(n)[1] >= 128
  {
    hide Val, Pow;
    ValOfDigits(AbsValue(n), 256);
    var m := Magnitude(n);
    if m != [] && m[0] >= 128 {
      ValPrepend(0, m, 256);
    }
  }

  lemma MpiRoundTrip(n: int)
    ensures FromMpiBody(MpiBody(n)) == n
  {
    hide Padded, Val;
    PaddedTop(n);
    var p := Padded(n);
    if n < 0 {
      var s := p[0 := p[0] + 128];
      assert s[0 := s[0] - 128] == p;
    }
  }

  /** Bytes of this shape are the ones that the number is written with. */
  lemma PaddedUnique(s: seq<int>)
    requires IsNumeral(s, 256) && s != [] && s[0] < 128 && (s[0] == 0 ==> |s| >= 2 && s[1] >= 128)
    ensures Val(s, 256) >= 0 && Padded(Val(s, 256)) == s
  {
    hide Val, Pow, Digits;
    ValBound(s, 256);
    if s[0] == 0 {
      assert s == [0] + s[1..];
      ValPrepend(0, s[1..], 256);
      DigitsOfVal(s[1..], 256);
    } else {
      DigitsOfVal(s, 256);
    }
  }

  // ---------- little-endian vectors ----------

  lemma ReversedTwice(s: seq<int>)
    ensures Reversed(Reversed(s)) == s
  {
  }

  /** The number of a vector, least significant byte first. */
  function LittleEndian(vch: seq<int>): int {
    if vch == [] then 0 else vch[0] + 256 * LittleEndian(vch[1..])
  }

  /** With the top bit of the last byte as the sign. */
  function SignedLittleEndian(vch: seq<int>): int {
    if vch == [] then 0
    else
      var last := |vch| - 1;
      if vch[last] >= 128 then -LittleEndian(vch[last := vch[last] - 128]) else LittleEndian(vch)
  }

  /** The last byte is needed: for its bits, or to keep the sign off the byte before it. */
  predicate Minimal(vch: seq<int>) {
    vch == [] || (vch[|vch| - 1] != 0 && vch[|vch| - 1] != 128) || (|vch| >= 2 && vch[|vch| - 2] >= 128)
  }

  lemma {:induction false} LittleEndianReversed(vch: seq<int>)
    ensures LittleEndian(vch) == Val(Reversed(vch), 256)
  {
    if vch != [] {
      LittleEndianReversed(vch[1..]);
      assert Reversed(vch)[..|vch| - 1] == Reversed(vch[1..]);
    }
  }

  lemma ReversedUpdate(s: seq<int>, x: int)
    requires s != []
    ensures Reversed(s[|s| - 1 := x]) == Reversed(s)[0 := x]
  {
  }

  lemma SignedReversed(vch: seq<int>)
    ensures SignedLittleEndian(vch) == FromMpiBody(Reversed(vch))
  {
    if vch != [] {
      hide LittleEndian, Val;
      var last := |vch| - 1;
      if vch[last] >= 128 {
        LittleEndianReversed(vch[last := vch[last] - 128]);
        ReversedUpdate(vch, vch[last] - 128);
      } else {
        LittleEndianReversed(vch);
      }
    }
  }

  /** The written form is minimal and denotes the number. */
  lemma VchDenotes(n: int)
    ensures var vch := Reversed(MpiBody(n));
      SignedLittleEndian(vch) == n && Minimal(vch) && IsNumeral(vch, 256) && (vch == [] <==> n == 0)
  {
    PaddedTop(n);
    MpiRoundTrip(n);
    SignedReversed(Reversed(MpiBody(n)));
    ReversedTwice(MpiBody(n));
    TopByteUsed(n);
  }

  lemma TopByteUsed(n: int)
    ensures var s := MpiBody(n); s == [] || (s[0] != 0 && s[0] != 128) || (|s| >= 2 && s[1] >= 128)
  {
    hide Padded;
    PaddedTop(n);
  }

  lemma PositiveBody(s: seq<int>)
    requires IsNumeral(s, 256) && s != [] && s[0] < 128 && (s[0] == 0 ==> |s| >= 2 && s[1] >= 128)
    ensures MpiBody(FromMpiBody(s)) == s
  {
    hide Val, Padded;
    PaddedUnique(s);
  }

  lemma NegativeBody(s: seq<int>)
    requires IsNumeral(s, 256) && s != [] && s[0] >= 128 && (s[0] == 128 ==> |s| >= 2 && s[1] >= 128)
    ensures MpiBody(FromMpiBody(s)) == s
  {
    hide Val, Magnitude;
    var p := s[0 := s[0] - 128];
    PaddedUnique(p);
    PaddedTop(Val(p, 256));
    assert Padded(-Val(p, 256)) == Padded(Val(p, 256)) by {
      SameMagnitude(Val(p, 256));
    }
    assert p[0 := p[0] + 128] == s;
  }

  lemma SameMagnitude(n: int)
    ensures Magnitude(-n) == Magnitude(n)
  {
  }

  lemma NoBytes()
    ensures SignedLittleEndian([]) == 0
  {
  }

  /** Reading a vector and writing the number gives the vector back exactly when it is minimal. */
  lemma VchRoundTripIff(vch: seq<int>)
    requires IsNumeral(vch, 256)
    ensures Reversed(MpiBody(SignedLittleEndian(vch))) == vch <==> Minimal(vch)
  {
    hide SignedLittleEndian, MpiBody, FromMpiBody;
    VchDenotes(SignedLittleEndian(vch));
    if vch == [] {
      NoBytes();
    } else if Minimal(vch) {
      var body := Reversed(vch);
      SignedReversed(vch);
      ReversedTwice(vch);
      if body[0] >= 128 {
        NegativeBody(body);
      } else {
        PositiveBody(body);
      }
    }
  }

  /** The number as little-endian bytes with a sign bit, as few as possible; no bytes for zero. */
  method GetVch(n: int) returns (vch: seq<int>)
    ensures SignedLittleEndian(vch) == n && IsNumeral(vch, 256)
    ensures Minimal(vch) && (vch == [] <==> n == 0)
  {
    VchDenotes(n);
    var body := MpiBody(n);
    if |body| == 0 {
      return [];
    }
    vch := Reversed(body);
  }

  /** Any bytes are accepted, with needless ones at the end as well. */
  method SetVch(vch: seq<int>) returns (n: int)
    ensures n == SignedLittleEndian(vch)
  {
    SignedReversed(vch);
    n := FromMpiBody(Reversed(vch));
  }

  /** What was written is read back. */
  method ThroughVch(n: int) returns (m: int)
    ensures m == n
  {
    var vch := GetVch(n);
    m := SetVch(vch);
  }
}
