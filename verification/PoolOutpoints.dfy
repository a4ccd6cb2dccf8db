/**
 * Which outputs the entries of a mixing session spend. Entries are kept apart by comparing whole inputs
 * (src/core.h:96-101, src/darksend.cpp:1045), so that one output can be in two entries.
 */
module PoolOutpoints {
  import opened Denominations
  import opened DarksendPool

  ghost predicate Apart(a: Entry, b: Entry) {
    forall i, j :: 0 <= i < |a.sev| && 0 <= j < |b.sev| ==> a.sev[i].txin.prevout != b.sev[j].txin.prevout
  }

  /** No output is spent by two entries. */
  ghost predicate AllApart(entries: seq<Entry>) {
    forall j, k :: 0 <= j < k < |entries| ==> Apart(entries[j], entries[k])
  }

  /** The same output under another signature script or sequence number. */
  predicate Disguised(a: TxIn, b: TxIn) {
    a.prevout == b.prevout && (a.scriptSig != b.scriptSig || a.nSequence != b.nSequence)
  }

  ghost predicate DisguisedIn(e: Entry, newInput: seq<TxIn>) {
    exists i, j :: 0 <= i < |e.sev| && 0 <= j < |newInput| && Disguised(e.sev[i].txin, newInput[j])
  }

  /** The inputs of an accepted entry and of one before it have an output in common iff it comes in disguise. */
  lemma ApartIffNoDisguise(e: Entry, newInput: seq<TxIn>, nAmount: int, txCollateral: nat, newOutput: seq<TxOut>, nNow: int)
    requires forall j :: 0 <= j < |newInput| ==> NewInputIn(e, newInput[j])
    ensures Apart(e, NewEntry(newInput, nAmount, txCollateral, newOutput, nNow)) <==> !DisguisedIn(e, newInput)
  {
    var n := NewEntry(newInput, nAmount, txCollateral, newOutput, nNow);
    forall i, j | 0 <= i < |e.sev| && 0 <= j < |newInput|
      ensures e.sev[i].txin.prevout == n.sev[j].txin.prevout <==> Disguised(e.sev[i].txin, newInput[j])
    {
      assert NewInputIn(e, newInput[j]);
    }
  }

  /**
   * After an entry has been accepted, all entries spend different outputs exactly when they did before and none of
   * its inputs is an input of theirs under another signature script or sequence number.
   */
  lemma ApartAfterEntry(entries: seq<Entry>, newInput: seq<TxIn>, nAmount: int, txCollateral: nat, newOutput: seq<TxOut>,
                        nNow: int)
    requires AllNewInputs(entries, newInput)
    ensures AllApart(entries + [NewEntry(newInput, nAmount, txCollateral, newOutput, nNow)])
       <==> AllApart(entries) && forall k :: 0 <= k < |entries| ==> !DisguisedIn(entries[k], newInput)
  {
    hide Apart, DisguisedIn;
    var n := NewEntry(newInput, nAmount, txCollateral, newOutput, nNow);
    var longer := entries + [n];
    forall k | 0 <= k < |entries|
      ensures Apart(longer[k], longer[|entries|]) <==> !DisguisedIn(entries[k], newInput)
    {
      forall j | 0 <= j < |newInput|
        ensures NewInputIn(entries[k], newInput[j])
      {
        assert NewInput(entries, newInput[j]);
      }
      ApartIffNoDisguise(entries[k], newInput, nAmount, txCollateral, newOutput, nNow);
    }
    assert forall k :: 0 <= k < |entries| ==> longer[k] == entries[k];
  }

  /** Signatures and expiry leave entries apart. */
  lemma ApartAfterSig(entries: seq<Entry>, newVin: TxIn, fSignatureValid: bool)
    ensures AllApart(AfterSig(entries, newVin, fSignatureValid)) <==> AllApart(entries)
  {
    var after := AfterSig(entries, newVin, fSignatureValid);
    assert forall k :: 0 <= k < |entries| ==> |after[k].sev| == |entries[k].sev|;
    assert forall k, i :: 0 <= k < |entries| && 0 <= i < |entries[k].sev| ==>
      after[k].sev[i].txin.prevout == entries[k].sev[i].txin.prevout;
    forall j, k | 0 <= j < k < |entries|
      ensures Apart(after[j], after[k]) <==> Apart(entries[j], entries[k])
    {
      SameOutputs(entries[j], after[j], entries[k], after[k]);
    }
  }

  lemma SameOutputs(a: Entry, a': Entry, b: Entry, b': Entry)
    requires |a.sev| == |a'.sev| && forall i :: 0 <= i < |a.sev| ==> a'.sev[i].txin.prevout == a.sev[i].txin.prevout
    requires |b.sev| == |b'.sev| && forall i :: 0 <= i < |b.sev| ==> b'.sev[i].txin.prevout == b.sev[i].txin.prevout
    ensures Apart(a, b) <==> Apart(a', b')
  {
    forall i, j | 0 <= i < |a.sev| && 0 <= j < |b.sev|
      ensures a.sev[i].txin.prevout == b.sev[j].txin.prevout <==> a'.sev[i].txin.prevout == b'.sev[j].txin.prevout
    {
    }
  }

  // ---------- the final transaction ----------

  ghost predicate DistinctOutputs(vin: seq<TxIn>) {
    forall i, j :: 0 <= i < j < |vin| ==> vin[i].prevout != vin[j].prevout
  }

  /** All inputs of the entries spend different outputs iff each entry's do and the entries are apart. */
  lemma {:induction false} DistinctIffApart(entries: seq<Entry>)
    ensures DistinctOutputs(AllInputs(entries))
       <==> AllApart(entries) && forall k :: 0 <= k < |entries| ==> DistinctOutputs(InputsOf(entries[k]))
  {
    if entries != [] {
      var m := |entries| - 1;
      var front, last := entries[..m], entries[m];
      DistinctIffApart(front);
      DistinctConcat(AllInputs(front), InputsOf(last));
      ApartFromAll(front, last);
      assert AllApart(entries) <==> AllApart(front) && forall k :: 0 <= k < m ==> Apart(front[k], last);
    }
  }

  ghost predicate NoneIn(vin: seq<TxIn>, other: seq<TxIn>) {
    forall i, j :: 0 <= i < |vin| && 0 <= j < |other| ==> vin[i].prevout != other[j].prevout
  }

  lemma DistinctConcat(a: seq<TxIn>, b: seq<TxIn>)
    ensures DistinctOutputs(a + b) <==> DistinctOutputs(a) && DistinctOutputs(b) && NoneIn(a, b)
  {
    var c := a + b;
    if DistinctOutputs(c) {
      forall i, j | 0 <= i < j < |b|
        ensures b[i].prevout != b[j].prevout
      {
        assert c[|a| + i] == b[i] && c[|a| + j] == b[j];
      }
      forall i, j | 0 <= i < |a| && 0 <= j < |b|
        ensures a[i].prevout != b[j].prevout
      {
        assert c[i] == a[i] && c[|a| + j] == b[j];
      }
      assert forall i :: 0 <= i < |a| ==> c[i] == a[i];
    }
  }

  lemma {:induction false} ApartFromAll(entries: seq<Entry>, e: Entry)
    ensures NoneIn(AllInputs(entries), InputsOf(e)) <==> forall k :: 0 <= k < |entries| ==> Apart(entries[k], e)
  {
    if entries != [] {
      var m := |entries| - 1;
      ApartFromAll(entries[..m], e);
      NoneInConcat(AllInputs(entries[..m]), InputsOf(entries[m]), InputsOf(e));
      ApartMeans(entries[m], e);
    }
  }

  lemma ApartMeans(a: Entry, b: Entry)
    ensures Apart(a, b) <==> NoneIn(InputsOf(a), InputsOf(b))
  {
    if NoneIn(InputsOf(a), InputsOf(b)) {
      forall i, j | 0 <= i < |a.sev| && 0 <= j < |b.sev|
        ensures a.sev[i].txin.prevout != b.sev[j].txin.prevout
      {
        assert InputsOf(a)[i].prevout != InputsOf(b)[j].prevout;
      }
    }
  }

  lemma NoneInConcat(a: seq<TxIn>, b: seq<TxIn>, c: seq<TxIn>)
    ensures NoneIn(a + b, c) <==> NoneIn(a, c) && NoneIn(b, c)
  {
    if NoneIn(a + b, c) {
      forall i, j | 0 <= i < |b| && 0 <= j < |c|
        ensures b[i].prevout != c[j].prevout
      {
        assert (a + b)[|a| + i] == b[i];
      }
      forall i, j | 0 <= i < |a| && 0 <= j < |c|
        ensures a[i].prevout != c[j].prevout
      {
        assert (a + b)[i] == a[i];
      }
    }
  }

  /** The outputs spent at these places, in order. */
  function Prevouts(places: seq<Place>): seq<nat> {
    seq(|places|, k requires 0 <= k < |places| => places[k].prevout)
  }

  lemma PrevoutsWithout(places: seq<Place>, at: nat)
    requires at < |places|
    ensures multiset(Prevouts(places)) == multiset(Prevouts(places[..at] + places[at + 1..])) + multiset{places[at].prevout}
  {
    assert Prevouts(places) == Prevouts(places[..at]) + [places[at].prevout] + Prevouts(places[at + 1..]);
    assert Prevouts(places[..at] + places[at + 1..]) == Prevouts(places[..at]) + Prevouts(places[at + 1..]);
  }

  lemma {:induction false} PrevoutsPermuted(a: seq<Place>, b: seq<Place>)
    requires multiset(a) == multiset(b)
    ensures multiset(Prevouts(a)) == multiset(Prevouts(b))
    decreases |a|
  {
    hide Prevouts;
    if a == [] {
      assert |multiset(b)| == |b|;
    } else {
      var at := Position(b, a[0]) by {
        assert a[0] in multiset(a);
      }
      var front, rest := a[..0] + a[1..], b[..at] + b[at + 1..];
      ElementsWithout(a, 0);
      ElementsWithout(b, at);
      Cancel(multiset(front), multiset(rest), a[0]);
      PrevoutsWithout(a, 0);
      PrevoutsWithout(b, at);
      PrevoutsPermuted(front, rest);
    }
  }

  lemma {:induction false} NotTwice(s: seq<nat>)
    ensures (forall i, j :: 0 <= i < j < |s| ==> s[i] != s[j]) <==> forall o :: multiset(s)[o] <= 1
  {
    if s != [] {
      var m := |s| - 1;
      var front := s[..m];
      NotTwice(front);
      assert s == front + [s[m]];
      assert forall o :: multiset(s)[o] == multiset(front)[o] + if o == s[m] then 1 else 0;
      assert s[m] in front <==> multiset(front)[s[m]] > 0;
    }
  }

  lemma DistinctByCount(vin: seq<TxIn>)
    ensures DistinctOutputs(vin) <==> forall o :: multiset(Prevouts(Places(vin)))[o] <= 1
  {
    var s := Prevouts(Places(vin));
    NotTwice(s);
    forall i, j | 0 <= i < j < |vin|
      ensures s[i] != s[j] <==> vin[i].prevout != vin[j].prevout
    {
    }
  }

  /**
   * The final transaction spends no output twice exactly when the entries are apart and none of them does so by
   * itself.
   */
  lemma FinalSpendsOnceIff(finalVin: seq<TxIn>, finalVout: seq<TxOut>, entries: seq<Entry>)
    requires Combines(finalVin, finalVout, entries)
    ensures DistinctOutputs(finalVin)
       <==> AllApart(entries) && forall k :: 0 <= k < |entries| ==> DistinctOutputs(InputsOf(entries[k]))
  {
    hide DistinctOutputs, AllApart, Places, Prevouts;
    PrevoutsPermuted(Places(finalVin), Places(AllInputs(entries)));
    DistinctByCount(finalVin);
    DistinctByCount(AllInputs(entries));
    DistinctIffApart(entries);
  }

  // ---------- a run ----------

  /** One output, the second time with another sequence number. */
  const First: TxIn := TxIn(1, 0, 0, 0xFFFF_FFFF)
  const Again: TxIn := TxIn(1, 0, 0, 0)
  const Paid: seq<TxOut> := [TxOut(DENOMINATIONS[0], 0)]

  lemma PaidMask()
    ensures Mask(Paid) != 0
  {
    assert IsDenomination(Paid[0].nValue);
    MaskMeans(Paid);
  }

  /** A session of three users in which two entries spend one output. */
  method OneOutputTwice() returns (pool: Pool)
    ensures fresh(pool) && pool.Valid() && |pool.entries| == 2 && AllDisjoint(pool.entries) && !AllApart(pool.entries)
  {
    hide Mask, MaskUpTo, AllDenominated, Denominations.DENOMINATIONS;
    PaidMask();
    pool := new Pool(0);
    var ok := pool.IsCompatibleWithSession(1, 1, true, 0);
    ok := pool.IsCompatibleWithSession(1, 2, true, 0);
    ok := pool.IsCompatibleWithSession(1, 3, true, 0);
    pool.CheckForCompleteQueue(0);
    assert AllNewInputs(pool.entries, [First]) && Compatible(pool.entries, Paid);
    ok := pool.SubmitEntry([First], 0, 1, Paid, true, true, true, true, 0, 0);
    assert pool.entries == [NewEntry([First], 0, 1, Paid, 0)];
    assert NewInputIn(pool.entries[0], Again);
    assert AllNewInputs(pool.entries, [Again]);
    assert Compatible(pool.entries, Paid);
    ok := pool.SubmitEntry([Again], 0, 2, Paid, true, true, true, true, 0, 0);
    assert ok;
    assert pool.entries[0].sev[0].txin.prevout == pool.entries[1].sev[0].txin.prevout;
  }
}
