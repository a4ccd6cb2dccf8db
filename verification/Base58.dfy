/** Base58 text for byte strings. */
module Base58 {
  import opened Common
  import opened Numerals
  import Bignum

  type Byte = Bignum.Byte

  // ---------- characters ----------

  function From(c: char, k: int): char
    requires 0 <= k < 26 && c as int < 0x80
  {
    (c as int + k) as char
  }

  /** The alphabet: 1-9, A-Z without I and O, a-z without l, in this order. */
  function CharOf(d: nat): char
    requires d < 58
  {
    if d < 9 then From('1', d)
    else if d < 17 then From('A', d - 9)
    else if d < 22 then From('J', d - 17)
    else if d < 33 then From('P', d - 22)
    else if d < 44 then From('a', d - 33)
    else From('m', d - 44)
  }

  /** The digit that a character stands for, if any. */
  function DigitOf(c: char): (r: Option<nat>)
    ensures r.Some? ==> r.value < 58
  {
    if '1' <= c <= '9' then Some(c as int - '1' as int)
    else if 'A' <= c <= 'H' then Some(c as int - 'A' as int + 9)
    else if 'J' <= c <= 'N' then Some(c as int - 'J' as int + 17)
    else if 'P' <= c <= 'Z' then Some(c as int - 'P' as int + 22)
    else if 'a' <= c <= 'k' then Some(c as int - 'a' as int + 33)
    else if 'm' <= c <= 'z' then Some(c as int - 'm' as int + 44)
    else None
  }

  predicate IsSpace(c: char) {
    c == ' ' || '\t' <= c <= '\r'
  }

  lemma CharDigit(d: nat)
    requires d < 58
    ensures DigitOf(CharOf(d)) == Some(d) && !IsSpace(CharOf(d)) && (CharOf(d) == '1' <==> d == 0)
  {
  }

  lemma DigitChar(c: char)
    requires DigitOf(c).Some?
    ensures CharOf(DigitOf(c).value) == c
  {
  }

  // ---------- what encoding and decoding mean ----------

  function LeadingZeros(v: seq<Byte>): nat {
    if v == [] || v[0] != 0 then 0 else 1 + LeadingZeros(v[1..])
  }

  function Ones(n: nat): string {
    seq(n, _ => '1')
  }

  function Chars(digits: seq<int>): (s: string)
    requires IsNumeral(digits, 58)
    ensures |s| == |digits|
  {
    seq(|digits|, i requires 0 <= i < |digits| => CharOf(digits[i]))
  }

  ghost function Number(v: seq<Byte>): (n: nat) {
    ValBound(v, 256);
    Val(v, 256)
  }

  /** A `1` for each leading zero byte, then the shortest base-58 numeral of the bytes read as a base-256 number. */
  ghost function Encoded(v: seq<Byte>): string {
    Ones(LeadingZeros(v)) + Chars(Digits(Number(v), 58))
  }

  function SkipSpaces(s: string): string {
    if s != [] && IsSpace(s[0]) then SkipSpaces(s[1..]) else s
  }

  function SkipOnes(s: string): string {
    if s != [] && s[0] == '1' then SkipOnes(s[1..]) else s
  }

  /** The digits of the longest prefix of s that is in the alphabet. */
  function DigitPrefix(s: string): (d: seq<int>)
    ensures |d| <= |s| && IsNumeral(d, 58)
  {
    if s == [] || DigitOf(s[0]).None? then [] else [DigitOf(s[0]).value] + DigitPrefix(s[1..])
  }

  /**
   * Spaces around the text are skipped, and so are its leading `1`s: they do not
   * come back as zero bytes.
   */
  ghost function Decoded(s: string): Option<seq<int>> {
    var t := SkipOnes(SkipSpaces(s));
    var d := DigitPrefix(t);
    if SkipSpaces(t[|d|..]) == [] then
      ValBound(d, 58);
      Some(Digits(Val(d, 58), 256))
    else None
  }

  // ---------- the digit buffer ----------

  lemma CarryStep(carry: nat, k: nat, d: nat, p: nat, rest: int, oldRest: int, carry0: int, b: nat)
    requires b > 0 && carry * p + rest == oldRest * k + carry0
    ensures var c := carry + k * d;
      (c / b) * (b * p) + ((c % b) * p + rest) == (d * p + oldRest) * k + carry0
  {
    var c := carry + k * d;
    DivModParts(c, b);
    assert (c / b) * (b * p) + (c % b) * p == c * p by {
      assert (c / b) * (b * p) == (c / b * b) * p;
    }
    assert c * p == carry * p + k * d * p;
    assert k * d * p == d * p * k;
  }

  /** The part of the buffer done so far, with its carry, is k times what it was, plus carry0. */
  ghost predicate Carried(carry: nat, tail: seq<int>, oldTail: seq<int>, b: nat, k: nat, carry0: nat) {
    carry * Pow(b, |tail|) + Val(tail, b) == Val(oldTail, b) * k + carry0
  }

  lemma EmptyBuffer(carry: nat, b: nat, k: nat)
    ensures Carried(carry, [], [], b, k, carry)
  {
  }

  /** One position further to the left. */
  lemma CarryLeft(tail: seq<int>, oldTail: seq<int>, d: nat, carry: nat, b: nat, k: nat, carry0: nat)
    requires b > 0 && |tail| == |oldTail| && Carried(carry, tail, oldTail, b, k, carry0)
    ensures var c := carry + k * d;
      c >= 0 && 0 <= c % b < b && c / b >= 0 && Carried(c / b, [c % b] + tail, [d] + oldTail, b, k, carry0)
  {
    var c := carry + k * d;
    ValPrepend(d, oldTail, b);
    ValPrepend(c % b, tail, b);
    CarryStep(carry, k, d, Pow(b, |tail|), Val(tail, b), Val(oldTail, b), carry0, b);
  }

  /** Multiplies the number in the buffer by k and adds carry0, in place, from the last digit on. */
  method MulAdd(buf: array<int>, b: nat, k: nat, carry0: nat) returns (carry: nat)
    requires b > 0 && IsNumeral(buf[..], b)
    modifies buf
    ensures IsNumeral(buf[..], b)
    ensures Carried(carry, buf[..], old(buf[..]), b, k, carry0)
  {
    hide Carried;
    ghost var was := buf[..];
    var acc: int := carry0;
    assert buf[buf.Length..] == [] && was[buf.Length..] == [];
    EmptyBuffer(acc, b, k);
    for i := buf.Length downto 0
      invariant |was| == buf.Length && buf[..i] == was[..i]
      invariant IsNumeral(buf[i..], b)
      invariant acc >= 0 && Carried(acc, buf[i..], was[i..], b, k, carry0)
    {
      ghost var tail := buf[i + 1..];
      assert buf[i] == was[i] && was[i..] == [was[i]] + was[i + 1..];
      CarryLeft(tail, was[i + 1..], was[i], acc, b, k, carry0);
      acc := acc + k * buf[i];
      buf[i] := acc % b;
      assert buf[i..] == [acc % b] + tail;
      acc := acc / b;
    }
    assert buf[0..] == buf[..] && was[0..] == was;
    carry := acc;
  }

  lemma EightBytesFitElevenDigits()
    ensures Pow(256, 8) <= Pow(58, 11)
  {
  }

  lemma BufferRatio(n: nat, m: nat)
    requires m == n * 138 / 100 + 1
    ensures 11 * n <= 8 * m
  {
  }

  /** 58^(8m) >= 58^(11n) >= 256^(8n) as soon as 8m >= 11n, so m digits hold n bytes. */
  lemma DigitsSuffice(n: nat, m: nat)
    requires m == n * 138 / 100 + 1
    ensures Pow(256, n) <= Pow(58, m)
  {
    hide Pow;
    EightBytesFitElevenDigits();
    BufferRatio(n, m);
    PowMul(256, 8, n);
    PowMonoBase(Pow(256, 8), Pow(58, 11), n);
    PowMul(58, 11, n);
    PowMonoExponent(58, 11 * n, m * 8);
    PowMul(256, n, 8);
    PowMul(58, m, 8);
    assert n * 8 == 8 * n;
    PowMonoBase(Pow(58, m), Pow(256, n), 8);
  }

  /** A carry would mean that the number needs more digits than the buffer has. */
  lemma NoCarry(carry: nat, size: nat, value: int, n: nat, v: nat)
    requires carry * Pow(58, size) + value == v && value >= 0 && v < Pow(256, n) <= Pow(58, size)
    ensures carry == 0
  {
    if carry > 0 {
      MulMono(1, carry, Pow(58, size));
    }
  }

  // ---------- encoding ----------

  lemma {:induction false} SkipZeroBytes(v: seq<Byte>, z: nat)
    requires z <= |v| && forall i :: 0 <= i < z ==> v[i] == 0
    ensures Number(v[z..]) == Number(v)
    ensures z == |v| || v[z] != 0 ==> LeadingZeros(v) == z
    decreases z
  {
    hide Pow;
    if z == 0 {
      assert v[0..] == v;
    } else {
      var w := v[1..];
      assert w[z - 1..] == v[z..];
      SkipZeroBytes(w, z - 1);
      ValPrepend(0, w, 256);
      assert v == [0] + w;
    }
  }

  /** After byte i has gone into the buffer, nothing is left over. */
  lemma NothingLeft(w: seq<Byte>, i: nat, digits: seq<int>, carry: nat)
    requires i < |w| && IsNumeral(digits, 58) && Pow(256, |w|) <= Pow(58, |digits|)
    requires carry * Pow(58, |digits|) + Val(digits, 58) == Val(w[..i], 256) * 256 + w[i]
    ensures carry == 0 && Val(digits, 58) == Val(w[..i + 1], 256)
  {
    hide Val, Pow;
    assert w[..i + 1] == w[..i] + [w[i]];
    ValSnoc(w[..i], w[i], 256);
    ValBound(digits, 58);
    ValBound(w[..i + 1], 256);
    PowMonoExponent(256, i + 1, |w|);
    NoCarry(carry, |digits|, Val(digits, 58), |w|, Val(w[..i + 1], 256));
  }

  /** Pours the bytes into the buffer; the code's `assert(carry == 0)` holds each time. */
  method Pour(w: seq<Byte>, b58: array<int>)
    requires b58.Length == |w| * 138 / 100 + 1 && forall i :: 0 <= i < b58.Length ==> b58[i] == 0
    modifies b58
    ensures IsNumeral(b58[..], 58) && Val(b58[..], 58) == Val(w, 256)
  {
    hide Val, Pow;
    DigitsSuffice(|w|, b58.Length);
    ZerosVal(b58[..], 58);
    ValNone(256);
    assert w[..0] == [];
    for i := 0 to |w|
      invariant IsNumeral(b58[..], 58) && Val(b58[..], 58) == Val(w[..i], 256)
    {
      var carry := MulAdd(b58, 58, 256, w[i]);
      NothingLeft(w, i, b58[..], carry);
      assert carry == 0;
    }
    assert w[..|w|] == w;
  }

  /** Drops the leading zero digits and translates the others. */
  method Translate(b58: array<int>, zeroes: nat) returns (str: string)
    requires IsNumeral(b58[..], 58)
    ensures IsNumeral(StripZeros(b58[..]), 58)
    ensures str == Ones(zeroes) + Chars(StripZeros(b58[..]))
  {
    var it := 0;
    while it < b58.Length && b58[it] == 0
      invariant it <= b58.Length && StripZeros(b58[..]) == StripZeros(b58[it..])
    {
      assert b58[it..][1..] == b58[it + 1..];
      it := it + 1;
    }
    StripZerosShape(b58[..]);
    ghost var start, digits := it, b58[it..];
    str := Ones(zeroes);
    while it < b58.Length
      invariant start <= it <= b58.Length
      invariant str == Ones(zeroes) + Chars(digits)[..it - start]
    {
      assert b58[it] == digits[it - start];
      str := str + [CharOf(b58[it])];
      it := it + 1;
    }
  }

  method EncodeBase58(v: seq<Byte>) returns (str: string)
    ensures str == Encoded(v)
  {
    var zeroes := 0;
    while zeroes < |v| && v[zeroes] == 0
      invariant zeroes <= |v| && forall i :: 0 <= i < zeroes ==> v[i] == 0
    {
      zeroes := zeroes + 1;
    }
    var w := v[zeroes..];
    SkipZeroBytes(v, zeroes);
    var b58 := new int[|w| * 138 / 100 + 1](_ => 0);
    Pour(w, b58);
    StripZerosShape(b58[..]);
    StripZerosVal(b58[..], 58);
    DigitsOfVal(StripZeros(b58[..]), 58);
    str := Translate(b58, zeroes);
  }

  // ---------- decoding ----------

  lemma {:induction false} SkipOnesStops(s: string)
    ensures CountOnes(SkipOnes(s)) == 0
  {
    if s != [] && s[0] == '1' {
      SkipOnesStops(s[1..]);
    }
  }

  lemma {:induction false} DigitPrefixStep(s: string, i: nat)
    requires i <= |s| && forall k :: 0 <= k < i ==> DigitOf(s[k]).Some?
    ensures |DigitPrefix(s)| >= i
    ensures i == |s| || DigitOf(s[i]).None? ==> |DigitPrefix(s)| == i
    ensures forall k :: 0 <= k < i ==> DigitPrefix(s)[k] == DigitOf(s[k]).value
  {
    if i > 0 {
      DigitPrefixStep(s[1..], i - 1);
    }
  }

  lemma MagnitudeBytes(bn: nat)
    ensures var m, p := Digits(bn, 256), Bignum.MpiBody(bn);
      && (m == [] || m[0] != 0)
      && p == if m != [] && m[0] >= 128 then [0] + m else m
  {
    ValOfDigits(bn, 256);
  }

  /** A zero byte is in front exactly when the next one has its top bit set. */
  lemma TrimSign(bn: nat)
    ensures var vch := Reversed(Bignum.MpiBody(bn)); var n := |vch|;
      if n >= 2 && vch[n - 1] == 0 && vch[n - 2] >= 0x80 then Reversed(vch[..n - 1]) == Digits(bn, 256)
      else Reversed(vch) == Digits(bn, 256)
  {
    hide Digits, Bignum.MpiBody;
    MagnitudeBytes(bn);
    var body := Bignum.MpiBody(bn);
    var vch := Reversed(body);
    assert Reversed(vch) == body;
    if body != [] {
      assert Reversed(vch[..|vch| - 1]) == body[1..];
    }
  }

  function CountOnes(t: string): nat {
    if t == [] || t[0] != '1' then 0 else 1 + CountOnes(t[1..])
  }

  /** The number's bytes, big-endian, without the sign byte, behind a zero byte for each `1` that t starts with. */
  method Finish(bn: nat, t: string) returns (r: Option<seq<int>>)
    ensures r == Some(seq(CountOnes(t), _ => 0) + Digits(bn, 256))
  {
    hide Digits, Bignum.SignedLittleEndian, Bignum.MpiBody;
    var vchTmp := Bignum.GetVch(bn);
    Bignum.VchRoundTripIff(vchTmp);
    TrimSign(bn);
    var n := |vchTmp|;
    if n >= 2 && vchTmp[n - 1] == 0 && vchTmp[n - 2] >= 0x80 {
      vchTmp := vchTmp[..n - 1];
    }
    var nLeadingZeros := 0;
    while nLeadingZeros < |t| && t[nLeadingZeros] == '1'
      invariant nLeadingZeros <= |t| && CountOnes(t) == nLeadingZeros + CountOnes(t[nLeadingZeros..])
    {
      assert t[nLeadingZeros..][1..] == t[nLeadingZeros + 1..];
      nLeadingZeros := nLeadingZeros + 1;
    }
    return Some(seq(nLeadingZeros, _ => 0) + Reversed(vchTmp));
  }

  /** What follows a digit must be spaces to the end. */
  method SkipTrailing(t: string, p0: nat) returns (p: nat)
    requires p0 <= |t|
    ensures p0 <= p <= |t| && SkipSpaces(t[p0..]) == t[p..]
  {
    p := p0;
    while p < |t| && IsSpace(t[p])
      invariant p0 <= p <= |t| && SkipSpaces(t[p0..]) == SkipSpaces(t[p..])
    {
      assert t[p..][1..] == t[p + 1..];
      p := p + 1;
    }
  }

  lemma NoDigitsLeft(bn: nat)
    ensures seq(0, _ => 0) + Digits(bn, 256) == Digits(bn, 256)
  {
  }

  /** s is a C string: it has no NUL inside. */
  method DecodeBase58(s: string) returns (r: Option<seq<int>>)
    requires '\0' !in s
    ensures r == Decoded(s)
  {
    var psz := SkipTrailing(s, 0);
    assert s[0..] == s;
    ghost var t0 := s[psz..];
    while psz < |s| && s[psz] == '1'
      invariant psz <= |s| && SkipOnes(t0) == SkipOnes(s[psz..])
    {
      assert s[psz..][1..] == s[psz + 1..];
      psz := psz + 1;
    }
    var t := s[psz..];
    SkipOnesStops(t0);
    r := DecodeDigits(t);
  }

  method DecodeDigits(t: string) returns (r: Option<seq<int>>)
    requires CountOnes(t) == 0
    ensures var d := DigitPrefix(t);
      r == if SkipSpaces(t[|d|..]) == [] then ValBound(d, 58); Some(Digits(Val(d, 58), 256)) else None
  {
    hide Val, Digits, Pow;
    ghost var d := DigitPrefix(t);
    ValBound(d, 58);
    ValNone(58);
    var bn, p := 0, 0;
    while p < |t|
      invariant p <= |t| && (forall k :: 0 <= k < p ==> DigitOf(t[k]).Some?)
      invariant p <= |d| && bn == Val(d[..p], 58)
    {
      DigitPrefixStep(t, p);
      var digit := DigitOf(t[p]);
      if digit.None? {
        assert d[..|d|] == d;
        p := SkipTrailing(t, p);
        if p < |t| {
          return None;
        }
        r := Finish(bn, t);
        NoDigitsLeft(bn);
        return;
      }
      DigitPrefixStep(t, p + 1);
      assert d[..p + 1] == d[..p] + [d[p]];
      ValSnoc(d[..p], d[p], 58);
      bn := bn * 58 + digit.value;
      p := p + 1;
    }
    DigitPrefixStep(t, p);
    assert d[..|d|] == d && t[|d|..] == [];
    r := Finish(bn, t);
    NoDigitsLeft(bn);
  }

  // ---------- round trips ----------

  lemma {:induction false} OnesSkipped(n: nat, s: string)
    ensures SkipOnes(Ones(n) + s) == SkipOnes(s)
  {
    if n > 0 {
      assert (Ones(n) + s)[1..] == Ones(n - 1) + s;
      OnesSkipped(n - 1, s);
    } else {
      assert Ones(0) + s == s;
    }
  }

  lemma {:induction false} PrefixOfChars(digits: seq<int>)
    requires IsNumeral(digits, 58)
    ensures DigitPrefix(Chars(digits)) == digits
  {
    if digits != [] {
      assert Chars(digits)[1..] == Chars(digits[1..]);
      PrefixOfChars(digits[1..]);
      CharDigit(digits[0]);
      assert digits == [digits[0]] + digits[1..];
    }
  }

  lemma {:induction false} CharsOfPrefix(s: string)
    requires forall i :: 0 <= i < |s| ==> DigitOf(s[i]).Some?
    ensures |DigitPrefix(s)| == |s| && Chars(DigitPrefix(s)) == s
  {
    if s != [] {
      CharsOfPrefix(s[1..]);
      DigitChar(s[0]);
      var d := DigitPrefix(s[1..]);
      assert Chars([DigitOf(s[0]).value] + d) == [s[0]] + Chars(d);
      assert s == [s[0]] + s[1..];
    }
  }

  lemma {:induction false} StrippedBytes(v: seq<Byte>)
    ensures Digits(Number(v), 256) == StripZeros(v)
  {
    ValBound(v, 256);
    StripZerosShape(v);
    StripZerosVal(v, 256);
    DigitsOfVal(StripZeros(v), 256);
  }

  lemma EncodedDecodes(v: seq<Byte>)
    ensures Decoded(Encoded(v)) == Some(StripZeros(v))
  {
    var digits := Digits(Number(v), 58);
    var s := Chars(digits);
    ValOfDigits(Number(v), 58);
    var e := Encoded(v);
    if digits != [] {
      CharDigit(digits[0]);
    }
    assert SkipSpaces(e) == e;
    OnesSkipped(LeadingZeros(v), s);
    assert SkipOnes(s) == s;
    PrefixOfChars(digits);
    assert s[|digits|..] == [];
    StrippedBytes(v);
  }

  /** Decoding gives back the bytes without their leading zeros, so all of them exactly when there are none. */
  lemma RoundTripIffNoLeadingZero(v: seq<Byte>)
    ensures Decoded(Encoded(v)) == Some(v) <==> v == [] || v[0] != 0
  {
    EncodedDecodes(v);
    StripZerosShape(v);
  }

  /** The text denotes the same number as the bytes. */
  lemma EncodedDenotes(v: seq<Byte>)
    ensures var s := Encoded(v);
      && (forall i :: 0 <= i < |s| ==> DigitOf(s[i]).Some?)
      && Val(DigitPrefix(s[LeadingZeros(v)..]), 58) == Number(v)
  {
    var digits := Digits(Number(v), 58);
    var s := Encoded(v);
    assert s[LeadingZeros(v)..] == Chars(digits);
    PrefixOfChars(digits);
    ValOfDigits(Number(v), 58);
    forall i | 0 <= i < |s|
      ensures DigitOf(s[i]).Some?
    {
      if i >= LeadingZeros(v) {
        CharDigit(digits[i - LeadingZeros(v)]);
      }
    }
  }

  /** Text in the alphabet that starts with no `1` is the encoding of what it decodes to. */
  lemma DecodedEncodes(s: string)
    requires (forall i :: 0 <= i < |s| ==> DigitOf(s[i]).Some?) && (s == [] || s[0] != '1')
    ensures Decoded(s).Some? && IsNumeral(Decoded(s).value, 256) && Encoded(Decoded(s).value) == s
  {
    CharsOfPrefix(s);
    var d := DigitPrefix(s);
    ValBound(d, 58);
    assert SkipSpaces(s) == s && SkipOnes(s) == s && s[|d|..] == [];
    var v := Digits(Val(d, 58), 256);
    ValOfDigits(Val(d, 58), 256);
    assert LeadingZeros(v) == 0;
    if s != [] {
      DigitChar(s[0]);
      CharDigit(d[0]);
    }
    DigitsOfVal(d, 58);
    assert Ones(0) + s == s;
  }

  // ---------- with a checksum ----------

  type FourBytes = s: seq<Byte> | |s| == 4 witness [0, 0, 0, 0]

  /** The first four bytes of the hash of the payload. */
  type Checksum = seq<Byte> -> FourBytes

  method EncodeBase58Check(v: seq<Byte>, sum: Checksum) returns (str: string)
    ensures str == Encoded(v + sum(v))
  {
    str := EncodeBase58(v + sum(v));
  }

  /** The payload, if the text decodes and ends in the payload's checksum. */
  ghost function DecodedCheck(s: string, sum: Checksum): Option<seq<int>> {
    match Decoded(s)
    case None => None
    case Some(v) =>
      if |v| >= 4 && IsNumeral(v, 256) && sum(v[..|v| - 4]) == v[|v| - 4..] then Some(v[..|v| - 4]) else None
  }

  method DecodeBase58Check(s: string, sum: Checksum) returns (r: Option<seq<int>>)
    requires '\0' !in s
    ensures r == DecodedCheck(s, sum)
  {
    var v := DecodeBase58(s);
    if v.None? || |v.value| < 4 {
      return None;
    }
    var bytes := v.value;
    var n := |bytes| - 4;
    assert IsNumeral(bytes, 256);
    var payload: seq<Byte> := bytes[..n];
    var found: seq<int> := bytes[n..];
    if sum(payload) != found {
      return None;
    }
    return Some(payload);
  }

  /** The checked payload comes back exactly when the checked bytes do not start with a zero. */
  lemma CheckRoundTripIff(v: seq<Byte>, sum: Checksum)
    ensures DecodedCheck(Encoded(v + sum(v)), sum) == Some(v) <==> (v + sum(v))[0] != 0
  {
    var w := v + sum(v);
    EncodedDecodes(w);
    StripZerosShape(w);
    if w[0] != 0 {
      assert w[..|w| - 4] == v && w[|w| - 4..] == sum(v);
    } else {
      assert |StripZeros(w)| < |w|;
    }
  }
}
