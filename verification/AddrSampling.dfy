/**
 * Which entry leaves a full tried bucket (src/addrman.cpp:125-147), as a function of the random numbers drawn. Each
 * round moves an entry from a random place to the round's own place, where it stays, but what is handed back is the
 * place the oldest one was drawn from.
 */
module AddrSampling {
  import opened Common
  import opened AddrTables

  const TRIED_ENTRIES_INSPECT_ON_EVICT: nat := 4

  /** Round i draws a place from i on. */
  ghost predicate DrawsOk(n: nat, drawn: seq<nat>) {
    |drawn| <= n && forall i :: 0 <= i < |drawn| ==> i <= drawn[i] < n
  }

  /** The bucket after these rounds. */
  ghost function Shuffled(v: seq<Id>, drawn: seq<nat>): (s: seq<Id>)
    requires DrawsOk(|v|, drawn)
    ensures |s| == |v|
  {
    if drawn == [] then v
    else
      var i := |drawn| - 1;
      Swapped(Shuffled(v, drawn[..i]), drawn[i], i)
  }

  /** The entries looked at, in the order of the rounds. */
  ghost function Sample(v: seq<Id>, drawn: seq<nat>): seq<Id>
    requires DrawsOk(|v|, drawn)
  {
    Shuffled(v, drawn)[..|drawn|]
  }

  ghost predicate AllKnown(mi: InfoMap, v: seq<Id>) {
    forall k :: 0 <= k < |v| ==> v[k] in mi
  }

  /** The first of those with the least recent success. */
  ghost function FirstOldest(mi: InfoMap, seen: seq<Id>): (w: nat)
    requires seen != [] && AllKnown(mi, seen)
    ensures w < |seen| && forall k :: 0 <= k < |seen| ==> mi[seen[w]].nLastSuccess <= mi[seen[k]].nLastSuccess
    ensures forall k :: 0 <= k < w ==> mi[seen[w]].nLastSuccess < mi[seen[k]].nLastSuccess
  {
    var n := |seen| - 1;
    if n == 0 then 0
    else
      var w := FirstOldest(mi, seen[..n]);
      if mi[seen[n]].nLastSuccess < mi[seen[w]].nLastSuccess then n else w
  }

  lemma {:induction false} ShuffledSame(v: seq<Id>, drawn: seq<nat>)
    requires DrawsOk(|v|, drawn)
    ensures multiset(Shuffled(v, drawn)) == multiset(v)
    ensures Distinct(v) ==> Distinct(Shuffled(v, drawn))
    ensures forall mi :: AllKnown(mi, v) ==> AllKnown(mi, Shuffled(v, drawn))
  {
    if drawn != [] {
      var i := |drawn| - 1;
      ShuffledSame(v, drawn[..i]);
      SwappedSame(Shuffled(v, drawn[..i]), drawn[i], i);
    }
  }

  lemma SwappedSame(s: seq<Id>, i: nat, j: nat)
    requires i < |s| && j < |s|
    ensures multiset(Swapped(s, i, j)) == multiset(s)
    ensures Distinct(s) ==> Distinct(Swapped(s, i, j))
    ensures forall mi :: AllKnown(mi, s) ==> AllKnown(mi, Swapped(s, i, j))
  {
  }

  /** One more round leaves the earlier ones' places alone and puts the entry it drew in its own. */
  lemma OneRound(v: seq<Id>, drawn: seq<nat>, nPos: nat)
    requires DrawsOk(|v|, drawn) && |drawn| <= nPos < |v|
    ensures DrawsOk(|v|, drawn + [nPos])
    ensures Shuffled(v, drawn + [nPos]) == Swapped(Shuffled(v, drawn), nPos, |drawn|)
    ensures Sample(v, drawn + [nPos]) == Sample(v, drawn) + [Shuffled(v, drawn)[nPos]]
  {
    assert (drawn + [nPos])[..|drawn|] == drawn;
  }

  /** The oldest of one entry more. */
  lemma OldestOfMore(mi: InfoMap, seen: seq<Id>, x: Id)
    requires AllKnown(mi, seen) && x in mi
    ensures FirstOldest(mi, seen + [x]) ==
            if seen == [] then 0
            else if mi[x].nLastSuccess < mi[seen[FirstOldest(mi, seen)]].nLastSuccess then |seen|
            else FirstOldest(mi, seen)
  {
    assert (seen + [x])[..|seen|] == seen;
  }

  // ---------- the entry that leaves ----------

  /** As many rounds as the bucket allows, four at most. */
  ghost predicate FullSample(mi: InfoMap, v: seq<Id>, drawn: seq<nat>) {
    && v != [] && AllKnown(mi, v) && Distinct(v)
    && DrawsOk(|v|, drawn) && |drawn| == Min(TRIED_ENTRIES_INSPECT_ON_EVICT, |v|)
  }

  /** The round that drew the oldest entry. */
  ghost function OldestRound(mi: InfoMap, v: seq<Id>, drawn: seq<nat>): (w: nat)
    requires FullSample(mi, v, drawn)
    ensures w < |drawn|
  {
    ShuffledSame(v, drawn);
    FirstOldest(mi, Sample(v, drawn))
  }

  ghost function OldestSampled(mi: InfoMap, v: seq<Id>, drawn: seq<nat>): Id
    requires FullSample(mi, v, drawn)
  {
    Sample(v, drawn)[OldestRound(mi, v, drawn)]
  }

  /** The place handed back: where the oldest entry was, not where it is. */
  ghost function PlaceToEvict(mi: InfoMap, v: seq<Id>, drawn: seq<nat>): (p: nat)
    requires FullSample(mi, v, drawn)
    ensures p < |v|
  {
    drawn[OldestRound(mi, v, drawn)]
  }

  ghost function Evicted(mi: InfoMap, v: seq<Id>, drawn: seq<nat>): Id
    requires FullSample(mi, v, drawn)
  {
    Shuffled(v, drawn)[PlaceToEvict(mi, v, drawn)]
  }

  /** The round of the oldest entry drew it from the round's own place. */
  ghost predicate DrawnFromOwnPlace(mi: InfoMap, v: seq<Id>, drawn: seq<nat>)
    requires FullSample(mi, v, drawn)
  {
    PlaceToEvict(mi, v, drawn) == OldestRound(mi, v, drawn)
  }

  /** The entry that leaves is the oldest sampled one exactly when that was drawn from its round's own place. */
  lemma EvictedIsOldestIff(mi: InfoMap, v: seq<Id>, drawn: seq<nat>)
    requires FullSample(mi, v, drawn)
    ensures Evicted(mi, v, drawn) == OldestSampled(mi, v, drawn) <==> DrawnFromOwnPlace(mi, v, drawn)
    ensures OldestSampled(mi, v, drawn) in mi && AllKnown(mi, Sample(v, drawn))
    ensures forall k :: 0 <= k < |drawn| ==>
      mi[OldestSampled(mi, v, drawn)].nLastSuccess <= mi[Sample(v, drawn)[k]].nLastSuccess
  {
    ShuffledSame(v, drawn);
    var w := OldestRound(mi, v, drawn);
    assert Shuffled(v, drawn)[w] == OldestSampled(mi, v, drawn);
  }

  /** Entries with the same success times give the same sample and the same choice. */
  lemma SameChoice(mi: InfoMap, mi': InfoMap, v: seq<Id>, drawn: seq<nat>)
    requires FullSample(mi, v, drawn)
    requires forall k :: 0 <= k < |v| ==> v[k] in mi' && mi'[v[k]].nLastSuccess == mi[v[k]].nLastSuccess
    ensures FullSample(mi', v, drawn) && OldestRound(mi', v, drawn) == OldestRound(mi, v, drawn)
  {
    ShuffledSame(v, drawn);
    var seen := Sample(v, drawn);
    forall k | 0 <= k < |seen|
      ensures seen[k] in mi' && mi'[seen[k]].nLastSuccess == mi[seen[k]].nLastSuccess
    {
      assert seen[k] in multiset(Shuffled(v, drawn));
      assert seen[k] in v;
    }
    SameOldest(mi, mi', seen);
  }

  lemma {:induction false} SameOldest(mi: InfoMap, mi': InfoMap, seen: seq<Id>)
    requires seen != [] && AllKnown(mi, seen) && AllKnown(mi', seen)
    requires forall k :: 0 <= k < |seen| ==> mi'[seen[k]].nLastSuccess == mi[seen[k]].nLastSuccess
    ensures FirstOldest(mi', seen) == FirstOldest(mi, seen)
  {
    if |seen| > 1 {
      SameOldest(mi, mi', seen[..|seen| - 1]);
    }
  }

  // ---------- the wrong one ----------

  /** First the second place, then each round its own: the first two entries change places. */
  ghost function SecondFirst(k: nat): seq<nat> {
    seq(k, i => if i == 0 then 1 else i)
  }

  lemma {:induction false} SecondFirstSwaps(v: seq<Id>, k: nat)
    requires 1 <= k <= |v| && 2 <= |v|
    ensures DrawsOk(|v|, SecondFirst(k)) && Shuffled(v, SecondFirst(k)) == Swapped(v, 1, 0)
  {
    var d := SecondFirst(k);
    assert d[..k - 1] == SecondFirst(k - 1);
    if k == 1 {
      assert SecondFirst(0) == [];
    } else {
      SecondFirstSwaps(v, k - 1);
    }
  }

  /**
   * In every bucket whose second entry is the oldest of the first four, these draws evict the first entry although the
   * second one is sampled and older.
   */
  lemma YoungerOneLeaves(mi: InfoMap, v: seq<Id>, k: nat)
    requires |v| >= 2 && AllKnown(mi, v) && Distinct(v) && k == Min(TRIED_ENTRIES_INSPECT_ON_EVICT, |v|)
    requires forall i :: 0 <= i < k && i != 1 ==> mi[v[1]].nLastSuccess < mi[v[i]].nLastSuccess
    ensures FullSample(mi, v, SecondFirst(k))
    ensures OldestSampled(mi, v, SecondFirst(k)) == v[1] && Evicted(mi, v, SecondFirst(k)) == v[0]
    ensures mi[v[1]].nLastSuccess < mi[v[0]].nLastSuccess
  {
    var d := SecondFirst(k);
    SecondFirstSwaps(v, k);
    ShuffledSame(v, d);
    var seen := Sample(v, d);
    assert seen[0] == v[1] && seen[1] == v[0] && forall i :: 2 <= i < k ==> seen[i] == v[i];
    var w := FirstOldest(mi, seen);
    assert mi[seen[w]].nLastSuccess <= mi[seen[0]].nLastSuccess;
  }
}
