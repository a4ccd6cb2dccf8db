/** The denominations of a list of outputs as a bit mask (src/darksend.cpp:1978-2015). */
module Denominations {
  import opened Bits
  import opened Numerals
  import Transactions

  const COIN: int := Transactions.COIN

  /** Largest first, as the node fills the list at start-up (src/init.cpp:1113-1117). */
  const DENOMINATIONS: seq<int> :=
    [1000 * COIN + 1_000_000, 100 * COIN + 100_000, 10 * COIN + 10_000, COIN + 1_000, COIN / 10 + 100]

  datatype TxOut = TxOut(nValue: int, scriptPubKey: nat)

  ghost predicate Uses(vout: seq<TxOut>, d: int) {
    exists k :: 0 <= k < |vout| && vout[k].nValue == d
  }

  ghost predicate AllDenominated(vout: seq<TxOut>) {
    forall k :: 0 <= k < |vout| ==> IsDenomination(vout[k].nValue)
  }

  ghost predicate IsDenomination(nValue: int) {
    exists c :: 0 <= c < 5 && DENOMINATIONS[c] == nValue
  }

  /** The mask with a bit for each of the first n denominations that some output has. */
  ghost function MaskUpTo(vout: seq<TxOut>, n: nat): (mask: nat)
    requires n <= 5
  {
    if n == 0 then 0 else OrBit(MaskUpTo(vout, n - 1), n - 1, if Uses(vout, DENOMINATIONS[n - 1]) then 1 else 0)
  }

  /** 0 as soon as one output has another value. */
  ghost function Mask(vout: seq<TxOut>): nat {
    if AllDenominated(vout) then MaskUpTo(vout, 5) else 0
  }

  lemma {:induction false} MaskBits(vout: seq<TxOut>, n: nat)
    requires n <= 5
    ensures MaskUpTo(vout, n) < Pow(2, n)
    ensures forall c: nat :: c < n ==> (Bit(MaskUpTo(vout, n), c) == 1 <==> Uses(vout, DENOMINATIONS[c]))
    ensures forall c: nat :: c < n ==> Bit(MaskUpTo(vout, n), c) < 2
  {
    if n > 0 {
      MaskBits(vout, n - 1);
      OrBitAbove(MaskUpTo(vout, n - 1), n - 1, if Uses(vout, DENOMINATIONS[n - 1]) then 1 else 0);
    }
  }

  lemma NoBits(c: nat)
    ensures Bit(0, c) == 0
  {
  }

  /** A mask other than 0 says exactly which denominations occur; it is 0 for the empty list and for odd values. */
  lemma MaskMeans(vout: seq<TxOut>)
    ensures Mask(vout) == 0 <==> vout == [] || !AllDenominated(vout)
    ensures Mask(vout) != 0 ==> forall c: nat :: c < 5 ==> (Bit(Mask(vout), c) == 1 <==> Uses(vout, DENOMINATIONS[c]))
  {
    MaskBits(vout, 5);
    if AllDenominated(vout) && vout != [] {
      assert IsDenomination(vout[0].nValue);
      var c: nat :| c < 5 && DENOMINATIONS[c] == vout[0].nValue;
      assert Uses(vout, DENOMINATIONS[c]);
      NoBits(c);
    }
    if vout == [] {
      assert MaskUpTo(vout, 5) == 0 by { NoneUsed(5); }
    }
  }

  lemma {:induction false} NoneUsed(n: nat)
    requires n <= 5
    ensures MaskUpTo([], n) == 0
  {
    if n > 0 {
      NoneUsed(n - 1);
    }
  }

  /** Two lists have the same nonzero mask exactly when the same denominations, and only denominations, occur in both. */
  lemma SameMask(a: seq<TxOut>, b: seq<TxOut>)
    requires Mask(a) != 0 && Mask(b) != 0
    ensures Mask(a) == Mask(b) <==> forall d :: Uses(a, d) <==> Uses(b, d)
  {
    if Mask(a) == Mask(b) {
      forall d
        ensures Uses(a, d) <==> Uses(b, d)
      {
        UsesOnlyDenominations(a, b, d);
        UsesOnlyDenominations(b, a, d);
      }
    } else if forall d :: Uses(a, d) <==> Uses(b, d) {
      SameUses(a, b);
    }
  }

  lemma SameUses(a: seq<TxOut>, b: seq<TxOut>)
    requires Mask(a) != 0 && Mask(b) != 0
    requires forall d :: Uses(a, d) <==> Uses(b, d)
    ensures Mask(a) == Mask(b)
  {
    MaskMeans(a);
    MaskMeans(b);
    MaskBits(a, 5);
    MaskBits(b, 5);
    SameBits(Mask(a), Mask(b), 5);
  }

  lemma UsesOnlyDenominations(a: seq<TxOut>, b: seq<TxOut>, d: int)
    requires Mask(a) == Mask(b) != 0
    ensures Uses(a, d) ==> Uses(b, d)
  {
    MaskMeans(a);
    MaskMeans(b);
    if Uses(a, d) {
      var k :| 0 <= k < |a| && a[k].nValue == d;
      assert IsDenomination(a[k].nValue);
      var c: nat :| c < 5 && DENOMINATIONS[c] == d;
      assert Uses(a, DENOMINATIONS[c]);
    }
  }

  /** The first loop: which denominations occur, and whether nothing else does. */
  method FindUsed(vout: seq<TxOut>) returns (ok: bool, used: seq<bool>)
    ensures ok <==> AllDenominated(vout)
    ensures |used| == 5 && (ok ==> forall c :: 0 <= c < 5 ==> (used[c] <==> Uses(vout, DENOMINATIONS[c])))
  {
    used := [false, false, false, false, false];
    for i := 0 to |vout|
      invariant AllDenominated(vout[..i]) && |used| == 5
      invariant forall c :: 0 <= c < 5 ==> (used[c] <==> Uses(vout[..i], DENOMINATIONS[c]))
    {
      var found := false;
      ghost var before := used;
      for c := 0 to 5
        invariant |used| == 5 && (found <==> exists e :: 0 <= e < c && DENOMINATIONS[e] == vout[i].nValue)
        invariant forall e :: 0 <= e < 5 ==> used[e] == (before[e] || (e < c && DENOMINATIONS[e] == vout[i].nValue))
      {
        if vout[i].nValue == DENOMINATIONS[c] {
          used := used[c := true];
          found := true;
        }
      }
      if !found {
        assert !IsDenomination(vout[i].nValue);
        return false, used;
      }
      assert IsDenomination(vout[i].nValue);
      UsesSnoc(vout, i);
    }
    assert vout[..|vout|] == vout;
    ok := true;
  }

  lemma UsesSnoc(vout: seq<TxOut>, i: nat)
    requires i < |vout|
    ensures forall d :: Uses(vout[..i + 1], d) <==> Uses(vout[..i], d) || vout[i].nValue == d
    ensures AllDenominated(vout[..i]) && IsDenomination(vout[i].nValue) ==> AllDenominated(vout[..i + 1])
  {
    var longer := vout[..i + 1];
    forall d | Uses(vout[..i], d)
      ensures Uses(longer, d)
    {
      var k :| 0 <= k < i && vout[..i][k].nValue == d;
      assert longer[k].nValue == d;
    }
    assert longer[i] == vout[i];
  }

  method GetDenominations(vout: seq<TxOut>) returns (denom: nat)
    ensures denom == Mask(vout)
  {
    var ok, used := FindUsed(vout);
    if !ok {
      return 0;
    }
    denom := 0;
    for c := 0 to 5
      invariant denom == MaskUpTo(vout, c)
    {
      denom := OrBit(denom, c, if used[c] then 1 else 0);
    }
  }
}
