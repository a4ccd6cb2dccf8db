/**
 * The address manager. Random choices are nondeterministic, the keyed bucket
 * hashes are arbitrary functions, and the clock is a parameter.
 */
module AddrManager {
  import opened Common
  import opened AddrTables
  import opened AddrSampling

  const HORIZON_DAYS: int := 30
  const RETRIES: int := 3
  const MAX_FAILURES: int := 10
  const MIN_FAIL_DAYS: int := 7
  const GETADDR_MAX_PCT: nat := 23
  const GETADDR_MAX: nat := 2500

  /** Storing a 64-bit value in the 32-bit time field. */
  function ToTime32(x: int): Time32 {
    x % 0x1_0000_0000
  }

  /** Whether an entry's statistics are bad enough to drop it. */
  predicate IsTerrible(info: AddrInfo, nNow: int) {
    if info.nLastTry != 0 && info.nLastTry >= nNow - 60 then false
    else if info.nTime > nNow + 10 * 60 then true
    else if info.nTime == 0 || nNow - info.nTime > HORIZON_DAYS * 86400 then true
    else if info.nLastSuccess == 0 && info.nAttempts >= RETRIES then true
    else nNow - info.nLastSuccess > MIN_FAIL_DAYS * 86400 && info.nAttempts >= MAX_FAILURES
  }

  function Power2(n: nat): (r: nat)
    ensures r >= 1
  {
    if n == 0 then 1 else 2 * Power2(n - 1)
  }

  /** The chance of another reference: one in two, in four and in eight. */
  lemma HarderEachTime()
    ensures Power2(1) == 2 && Power2(2) == 4 && Power2(3) == 8
  {
  }

  /** Some entry of the set that is terrible, if there is one. */
  method FindTerrible(mi: InfoMap, vNew: set<Id>, nNow: int) returns (r: Option<int>)
    requires forall id :: id in vNew ==> id in mi
    ensures r.None? <==> forall id :: id in vNew ==> !IsTerrible(mi[id], nNow)
    ensures r.Some? ==> r.value in vNew && IsTerrible(mi[r.value], nNow)
  {
    var rest := vNew;
    while rest != {}
      invariant rest <= vNew
      invariant forall id :: id in vNew - rest ==> !IsTerrible(mi[id], nNow)
    {
      var it :| it in rest;
      if IsTerrible(mi[it], nNow) {
        return Some(it);
      }
      rest := rest - {it};
    }
    return None;
  }

  /** The bucket's entries in the order in which they are enumerated. */
  ghost predicate Enumerates(order: seq<Id>, vNew: set<Id>) {
    |order| == |vNew| && (forall id :: id in order <==> id in vNew) && Distinct(order)
  }

  /** v is one of the four entries drawn, and none of them was seen longer ago. */
  ghost predicate OldestDrawn(mi: InfoMap, vNew: set<Id>, n: seq<nat>, v: Id) {
    exists order :: Enumerates(order, vNew) && OldestAt(mi, order, n, v)
  }

  ghost predicate OldestAt(mi: InfoMap, order: seq<Id>, n: seq<nat>, v: Id) {
    && (forall k :: 0 <= k < |n| ==> n[k] < |order| && order[n[k]] in mi)
    && v in mi && (exists k :: 0 <= k < |n| && order[n[k]] == v)
    && forall k :: 0 <= k < |n| ==> mi[v].nTime <= mi[order[n[k]]].nTime
  }

  /** Of the entries at four drawn positions of the bucket's enumeration, one that was seen least recently. */
  method OldestOfFour(mi: InfoMap, vNew: set<Id>, n: seq<nat>) returns (nOldest: Id)
    requires |n| == 4 && (forall k :: 0 <= k < 4 ==> n[k] < |vNew|) && forall id :: id in vNew ==> id in mi
    ensures nOldest in vNew && OldestDrawn(mi, vNew, n, nOldest)
  {
    hide Distinct;
    var nI := 0;
    var found := false;
    nOldest := 0;
    ghost var order: seq<Id> := [];
    NothingSeen(mi, n);
    var rest := vNew;
    while rest != {}
      invariant rest <= vNew && nI == |order| == |vNew| - |rest|
      invariant Distinct(order) && forall id :: id in order <==> id in vNew - rest
      invariant OldestSoFar(mi, order, n, found, nOldest)
    {
      var it :| it in rest;
      OneMoreSeen(mi, order, it, n, found, nOldest);
      order := order + [it];
      if nI == n[0] || nI == n[1] || nI == n[2] || nI == n[3] {
        if !found || mi[it].nTime < mi[nOldest].nTime {
          nOldest := it;
        }
        found := true;
      }
      rest := rest - {it};
      nI := nI + 1;
    }
    assert Enumerates(order, vNew);
    AllSeen(mi, order, n, found, nOldest);
  }

  /** The loop's choice among the drawn positions passed so far. */
  ghost predicate OldestSoFar(mi: InfoMap, order: seq<Id>, n: seq<nat>, found: bool, v: Id) {
    && (forall i :: 0 <= i < |order| ==> order[i] in mi)
    && (found <==> exists k :: 0 <= k < |n| && n[k] < |order|)
    && (found ==> v in mi && exists k :: 0 <= k < |n| && n[k] < |order| && order[n[k]] == v)
    && forall k :: 0 <= k < |n| && n[k] < |order| ==> v in mi && mi[v].nTime <= mi[order[n[k]]].nTime
  }

  lemma NothingSeen(mi: InfoMap, n: seq<nat>)
    ensures OldestSoFar(mi, [], n, false, 0) && Distinct([])
  {
  }

  lemma OneMoreSeen(mi: InfoMap, order: seq<Id>, it: Id, n: seq<nat>, found: bool, v: Id)
    requires OldestSoFar(mi, order, n, found, v) && it in mi && it !in order && Distinct(order)
    ensures Distinct(order + [it]) && (found ==> v in mi)
    ensures |order| in n ==>
      OldestSoFar(mi, order + [it], n, true, if !found || mi[it].nTime < mi[v].nTime then it else v)
    ensures |order| !in n ==> OldestSoFar(mi, order + [it], n, found, v)
  {
    var longer := order + [it];
    assert forall i :: 0 <= i < |order| ==> longer[i] == order[i];
    assert longer[|order|] == it;
    if found {
      var k :| 0 <= k < |n| && n[k] < |order| && order[n[k]] == v;
      assert longer[n[k]] == v;
    }
    if |order| in n {
      var k :| 0 <= k < |n| && n[k] == |order|;
      assert longer[n[k]] == it;
    } else {
      assert forall k :: 0 <= k < |n| && n[k] < |longer| ==> n[k] < |order|;
    }
  }

  lemma AllSeen(mi: InfoMap, order: seq<Id>, n: seq<nat>, found: bool, v: Id)
    requires OldestSoFar(mi, order, n, found, v) && n != [] && forall k :: 0 <= k < |n| ==> n[k] < |order|
    ensures OldestAt(mi, order, n, v)
  {
    assert n[0] < |order|;
  }

  /** What makes room in a full bucket: a terrible entry, or the oldest of four drawn ones when there is none. */
  ghost predicate Dropped(mi: InfoMap, bucket: set<Id>, nNow: int, v: Id) {
    && v in bucket && (forall id :: id in bucket ==> id in mi)
    && (IsTerrible(mi[v], nNow)
        || ((forall id :: id in bucket ==> !IsTerrible(mi[id], nNow))
            && exists n: seq<nat> :: |n| == 4 && OldestDrawn(mi, bucket, n, v)))
  }

  function Gone(victim: Option<Id>): set<Id> {
    if victim.Some? then {victim.value} else {}
  }

  /**
   * The tables after an entry got bucket b: another one leaves exactly when the entry was not there and the bucket was
   * full, and every other bucket and entry is as it was.
   */
  ghost predicate Placed(mi: InfoMap, vn: seq<set<Id>>, mi': InfoMap, vn': seq<set<Id>>, b: nat, nId: Id, nNow: int,
                         victim: Option<Id>)
  {
    && b < |vn| && nId in mi
    && (victim.Some? <==> nId !in vn[b] && |vn[b]| == NEW_BUCKET_SIZE)
    && (victim.Some? ==> victim.value != nId && Dropped(mi, vn[b], nNow, victim.value))
    && vn' == vn[b := vn[b] - Gone(victim) + {nId}]
    && (forall id :: id in mi' <==> id in mi && (victim == Some(id) ==> mi[id].nRefCount > 1))
    && forall id :: id in mi' ==>
         mi'[id] == mi[id].(nRandomPos := mi'[id].nRandomPos, nRefCount := mi[id].nRefCount + Change(vn[b], nId, victim, id))
  }

  /** One more reference for the entry placed, one fewer for the one that leaves. */
  function Change(bucket: set<Id>, nId: Id, victim: Option<Id>, id: Id): int {
    if id == nId && nId !in bucket then 1 else if victim == Some(id) then -1 else 0
  }

  // ---------- when an entry is bad, in days and minutes ----------

  /** Nothing tried in the last minute is dropped. */
  lemma TriedJustNowStays(info: AddrInfo, nNow: int)
    requires info.nLastTry != 0 && nNow - info.nLastTry <= 60
    ensures !IsTerrible(info, nNow)
  {
  }

  /**
   * An entry not tried in the last minute is dropped exactly when it was never seen, or seen more than ten minutes in the
   * future or more than 30 days ago; or was tried three times and never reached; or ten times, and not reached for a week.
   */
  lemma TerribleIff(info: AddrInfo, nNow: int)
    requires info.nLastTry == 0 || nNow - info.nLastTry > 60
    ensures IsTerrible(info, nNow) <==>
      || info.nTime == 0 || info.nTime - nNow > 600 || nNow - info.nTime > 2_592_000
      || (info.nLastSuccess == 0 && info.nAttempts >= 3)
      || (nNow - info.nLastSuccess > 604_800 && info.nAttempts >= 10)
  {
  }

  class AddrMan {
    /** the bucket hashes under this manager's secret key */
    const triedBucket: TriedHash
    const newBucket: NewHash

    var nIdCount: nat
    var mapInfo: InfoMap
    var mapAddr: map<NetAddr, Id>
    var vRandom: seq<Id>
    var nTried: int
    var vvTried: seq<seq<Id>>
    var nNew: int
    var vvNew: seq<set<Id>>

    ghost predicate Holds(pending: int)
      reads this
    {
      Consistent(mapInfo, mapAddr, vRandom, vvTried, vvNew, nTried, nNew, nIdCount, triedBucket, pending)
    }

    ghost predicate Valid()
      reads this
    {
      Holds(-1)
    }

    constructor (h: TriedHash, g: NewHash)
      ensures Valid() && triedBucket == h && newBucket == g && mapInfo == map[]
    {
      triedBucket, newBucket := h, g;
      nIdCount, mapInfo, mapAddr, vRandom := 0, map[], map[], [];
      nTried, nNew := 0, 0;
      vvTried := seq(TRIED_BUCKET_COUNT, _ => []);
      vvNew := seq(NEW_BUCKET_COUNT, _ => {});
      new;
      assert forall id :: BucketsOf(vvNew, id) == {};
    }

    /** The id of an address, if it is known. */
    method Find(ip: NetAddr) returns (r: Option<int>)
      requires AddrOk(mapInfo, mapAddr)
      ensures r.None? ==> ip !in mapAddr && forall id :: id in mapInfo ==> mapInfo[id].addr.ip != ip
      ensures r.Some? ==> r.value in mapInfo && mapInfo[r.value].addr.ip == ip
    {
      r := if ip in mapAddr then Some(mapAddr[ip]) else None;
    }

    method Create(addr: Service, nServices: set<nat>, nTime: Time32, source: NetAddr) returns (nId: Id)
      requires AddrOk(mapInfo, mapAddr) && RandomOk(mapInfo, vRandom) && IdsOk(mapInfo, nIdCount)
      requires addr.ip !in mapAddr
      modifies this`nIdCount, this`mapInfo, this`mapAddr, this`vRandom
      ensures AddrOk(mapInfo, mapAddr) && RandomOk(mapInfo, vRandom) && IdsOk(mapInfo, nIdCount)
      ensures nId !in old(mapInfo)
      ensures mapInfo == old(mapInfo)[nId :=
        AddrInfo(addr, nServices, nTime, 0, source, 0, 0, 0, false, |old(vRandom)|)]
    {
      nId, nIdCount := nIdCount, nIdCount + 1;
      var info := AddrInfo(addr, nServices, nTime, 0, source, 0, 0, 0, false, |vRandom|);
      AddEntry(mapInfo, mapAddr, vRandom, nId, info);
      mapInfo, mapAddr, vRandom := mapInfo[nId := info], mapAddr[addr.ip := nId], vRandom + [nId];
    }

    method SwapRandom(nRndPos1: nat, nRndPos2: nat)
      requires RandomOk(mapInfo, vRandom) && nRndPos1 < |vRandom| && nRndPos2 < |vRandom|
      modifies this`mapInfo, this`vRandom
      ensures RandomOk(mapInfo, vRandom) && SameButPlaces(old(mapInfo), mapInfo)
      ensures vRandom == Swapped(old(vRandom), nRndPos1, nRndPos2)
    {
      if nRndPos1 == nRndPos2 {
        return;
      }
      var nId1, nId2 := vRandom[nRndPos1], vRandom[nRndPos2];
      assert nId1 in mapInfo && nId2 in mapInfo;
      SwapKeepsRandom(mapInfo, vRandom, nRndPos1, nRndPos2);
      mapInfo := WithPlace(WithPlace(mapInfo, nId1, nRndPos2), nId2, nRndPos1);
      vRandom := Swapped(vRandom, nRndPos1, nRndPos2);
    }

    /** Deletes an entry: its place in vRandom is filled by the last one. */
    method Forget(id: Id)
      requires AddrOk(mapInfo, mapAddr) && RandomOk(mapInfo, vRandom) && id in mapInfo
      modifies this`mapInfo, this`mapAddr, this`vRandom
      ensures AddrOk(mapInfo, mapAddr) && RandomOk(mapInfo, vRandom)
      ensures SameButPlaces(old(mapInfo) - {id}, mapInfo)
    {
      SwapRandom(mapInfo[id].nRandomPos, |vRandom| - 1);
      RemoveLast(mapInfo, mapAddr, vRandom, id);
      vRandom := vRandom[..|vRandom| - 1];
      mapAddr := mapAddr - {mapInfo[id].addr.ip};
      mapInfo := mapInfo - {id};
    }

    /**
     * Takes id out of new bucket nUBucket, and forgets the address when that was
     * its last bucket.
     */
    method Unreference(nUBucket: nat, id: Id, ghost pending: int)
      requires Holds(pending) && nUBucket < |vvNew| && id in vvNew[nUBucket] && id != pending
      modifies this`mapInfo, this`mapAddr, this`vRandom, this`nNew, this`vvNew
      ensures Holds(pending)
      ensures vvNew == old(vvNew)[nUBucket := old(vvNew)[nUBucket] - {id}]
      ensures old(mapInfo[id].nRefCount) > 1 ==>
                mapInfo == old(mapInfo)[id := old(mapInfo[id]).(nRefCount := old(mapInfo[id].nRefCount) - 1)]
      ensures old(mapInfo[id].nRefCount) == 1 ==> SameButPlaces(old(mapInfo) - {id}, mapInfo)
    {
      hide AddrOk, RandomOk, TriedOk, NewOk, TimesOk, CountsOk, IdsOk;
      InBucketCounted(mapInfo, vvNew, pending, nUBucket, id);
      var info := mapInfo[id];
      vvNew := vvNew[nUBucket := vvNew[nUBucket] - {id}];
      if info.nRefCount - 1 == 0 {
        Forget(id);
        nNew := nNew - 1;
        Deleted(old(mapInfo), mapInfo, old(mapAddr), mapAddr, old(vRandom), vRandom, vvTried, old(vvNew),
                nTried, old(nNew), nIdCount, triedBucket, pending, nUBucket, id);
      } else {
        mapInfo := mapInfo[id := info.(nRefCount := info.nRefCount - 1)];
        Dereferenced(old(mapInfo), mapAddr, vRandom, vvTried, old(vvNew),
                     nTried, nNew, nIdCount, triedBucket, pending, nUBucket, id);
      }
    }

    /**
     * Makes room in a new bucket: drops some terrible entry (result 0), or, when
     * there is none, the least recently seen of up to four sampled ones (result 1).
     */
    method ShrinkNew(nUBucket: nat, nNow: int, ghost pending: int)
      returns (r: int, ghost victim: Id, ghost n: seq<nat>)
      requires Holds(pending) && nUBucket < |vvNew| && vvNew[nUBucket] != {} && pending !in vvNew[nUBucket]
      modifies this`mapInfo, this`mapAddr, this`vRandom, this`nNew, this`vvNew
      ensures Holds(pending)
      ensures victim in old(vvNew)[nUBucket] && vvNew == old(vvNew)[nUBucket := old(vvNew)[nUBucket] - {victim}]
      ensures forall id :: id in old(mapInfo) && id != victim ==>
                id in mapInfo && mapInfo[id] == old(mapInfo)[id].(nRandomPos := mapInfo[id].nRandomPos)
      ensures victim in mapInfo <==> old(mapInfo)[victim].nRefCount > 1
      ensures mapInfo.Keys <= old(mapInfo).Keys
      ensures victim in mapInfo ==> mapInfo[victim] == old(mapInfo)[victim].(nRefCount := old(mapInfo)[victim].nRefCount - 1)
      ensures r == 0 || r == 1
      ensures r == 0 ==> IsTerrible(old(mapInfo)[victim], nNow)
      ensures r == 1 ==>
        && (forall id :: id in old(vvNew)[nUBucket] ==> !IsTerrible(old(mapInfo)[id], nNow))
        && |n| == 4 && OldestDrawn(old(mapInfo), old(vvNew)[nUBucket], n, victim)
    {
      hide AddrOk, RandomOk, TriedOk, NewOk, TimesOk, CountsOk, IdsOk, OldestDrawn;
      BucketEntriesNew(mapInfo, vvNew, pending, nUBucket);
      var vNew := vvNew[nUBucket];
      n := [];
      var terrible := FindTerrible(mapInfo, vNew, nNow);
      if terrible.Some? {
        victim := terrible.value;
        InBucketCounted(mapInfo, vvNew, pending, nUBucket, victim);
        Unreference(nUBucket, terrible.value, pending);
        return 0, victim, n;
      }
      var oldest;
      var n0: nat :| n0 < |vNew|;
      var n1: nat :| n1 < |vNew|;
      var n2: nat :| n2 < |vNew|;
      var n3: nat :| n3 < |vNew|;
      n := [n0, n1, n2, n3];
      oldest := OldestOfFour(mapInfo, vNew, [n0, n1, n2, n3]);
      victim := oldest;
      InBucketCounted(mapInfo, vvNew, pending, nUBucket, oldest);
      Unreference(nUBucket, oldest, pending);
      return 1, victim, n;
    }

    /**
     * Shuffles the front of a tried bucket and picks the position of an entry to
     * evict. The position is noted after the swap, so the oldest sampled entry
     * stands there exactly when it was drawn from its round's own place.
     */
    method SelectTried(nKBucket: TriedIndex) returns (nOldestPos: int, ghost drawn: seq<nat>)
      requires TriedOk(mapInfo, vvTried, triedBucket) && vvTried[nKBucket] != []
      modifies this`vvTried
      ensures TriedOk(mapInfo, vvTried, triedBucket)
      ensures multiset(vvTried[nKBucket]) == multiset(old(vvTried)[nKBucket])
      ensures var v := old(vvTried)[nKBucket];
        && FullSample(mapInfo, v, drawn)
        && vvTried == old(vvTried)[nKBucket := Shuffled(v, drawn)]
        && nOldestPos == PlaceToEvict(mapInfo, v, drawn)
        && (vvTried[nKBucket][nOldestPos] == OldestSampled(mapInfo, v, drawn) <==> DrawnFromOwnPlace(mapInfo, v, drawn))
    {
      hide Shuffled, Sample, FirstOldest, DrawsOk, Swapped, Distinct, TriedOk, AllKnown;
      TableSizes(mapInfo, vvTried, vvNew, triedBucket);
      var vTried := vvTried[nKBucket];
      ghost var v := vTried;
      TriedKnown(mapInfo, vvTried, triedBucket, nKBucket);
      drawn := [];
      NothingDrawn(mapInfo, v);
      var nOldest := 0;
      nOldestPos := -1;
      var i := 0;
      while i < TRIED_ENTRIES_INSPECT_ON_EVICT && i < |vTried|
        invariant 0 <= i <= TRIED_ENTRIES_INSPECT_ON_EVICT && i <= |vTried| && |vTried| == |v| && i == |drawn| && vvTried == old(vvTried)
        invariant DrawsOk(|v|, drawn) && vTried == Shuffled(v, drawn) && |Sample(v, drawn)| == i
        invariant AllKnown(mapInfo, Sample(v, drawn))
        invariant if i == 0 then nOldestPos == -1 else
          var w := FirstOldest(mapInfo, Sample(v, drawn)); nOldest == Sample(v, drawn)[w] && nOldestPos == drawn[w]
      {
        var nPos: nat :| i <= nPos < |vTried|;
        var nTemp := vTried[nPos];
        ShuffledSame(v, drawn);
        KnownAt(mapInfo, vTried, nPos);
        OneRound(v, drawn, nPos);
        OldestOfMore(mapInfo, Sample(v, drawn), nTemp);
        KnownMore(mapInfo, Sample(v, drawn), nTemp);
        if i > 0 {
          KnownAt(mapInfo, Sample(v, drawn), FirstOldest(mapInfo, Sample(v, drawn)));
        }
        drawn := drawn + [nPos];
        vTried := Swapped(vTried, nPos, i);
        if nOldestPos == -1 || mapInfo[nTemp].nLastSuccess < mapInfo[nOldest].nLastSuccess {
          nOldest, nOldestPos := nTemp, nPos;
        }
        i := i + 1;
      }
      assert FullSample(mapInfo, v, drawn);
      EvictedIsOldestIff(mapInfo, v, drawn);
      ShuffledSame(v, drawn);
      PermutedTried(mapInfo, vvTried, triedBucket, nKBucket, vTried);
      vvTried := vvTried[nKBucket := vTried];
    }

    /** Takes an entry out of every new bucket, counting its references down. */
    method EraseFromAllNew(id: Id)
      requires NewOk(mapInfo, vvNew, -1) && id in mapInfo && !mapInfo[id].fInTried
      modifies this`mapInfo, this`vvNew
      ensures vvNew == Without(old(vvNew), id)
      ensures mapInfo == old(mapInfo)[id := old(mapInfo[id]).(nRefCount := 0)]
    {
      hide *;
      ghost var vn, mi := vvNew, mapInfo;
      ReferencesCounted(mi, vn, id);
      EraseNone(vn, id);
      for b := 0 to |vvNew|
        invariant |vvNew| == |vn| && ErasedUpTo(vn, vvNew, id, b)
        invariant mapInfo == mi[id := mi[id].(nRefCount := |BucketsFrom(vn, id, b)|)] && id in mapInfo
      {
        BucketsFromStep(vn, id, b);
        EraseOne(vn, vvNew, id, b);
        if id in vvNew[b] {
          vvNew := vvNew[b := vvNew[b] - {id}];
          mapInfo := mapInfo[id := mapInfo[id].(nRefCount := mapInfo[id].nRefCount - 1)];
        }
      }
      ErasedEverywhere(vn, vvNew, id);
    }

    /**
     * Moves a new entry to the tried bucket of its address. When that bucket is
     * full, an entry of it goes back to the new bucket of its own source or, if
     * that one is full, to the bucket the moved entry came from, which just lost
     * one.
     */
    method MakeTried(id: Id, nOrigin: nat) returns (ghost evicted: Option<Id>, ghost drawn: seq<nat>)
      requires Valid() && nOrigin < |vvNew| && id in vvNew[nOrigin] && id in mapInfo && mapInfo[id].nLastSuccess > 0
      modifies this`mapInfo, this`vvNew, this`vvTried, this`nNew, this`nTried
      ensures Valid()
      ensures evicted.None? <==> |old(vvTried)[triedBucket(old(mapInfo)[id].addr)]| < TRIED_BUCKET_SIZE
      ensures evicted.None? ==>
        && mapInfo == old(mapInfo)[id := old(mapInfo)[id].(nRefCount := 0, fInTried := true)]
        && vvNew == Without(old(vvNew), id)
        && vvTried == InTried(old(vvTried), triedBucket(old(mapInfo)[id].addr), id)
      ensures evicted.Some? ==>
        && Returned(old(mapInfo), mapInfo, old(vvNew), vvNew, newBucket, nOrigin, id, evicted.value)
        && triedBucket(old(mapInfo)[evicted.value].addr) == triedBucket(old(mapInfo)[id].addr)
        && EvictedBy(old(mapInfo), old(vvTried)[triedBucket(old(mapInfo)[id].addr)], drawn, evicted.value)
        && vvTried == InPlaceOf(old(mapInfo), old(vvTried), triedBucket(old(mapInfo)[id].addr), drawn, id)
    {
      hide AddrOk, RandomOk, TriedOk, NewOk, TimesOk, CountsOk, IdsOk, Without;
      InBucketCounted(mapInfo, vvNew, -1, nOrigin, id);
      TableSizes(mapInfo, vvTried, vvNew, triedBucket);
      var info := mapInfo[id].(nRefCount := 0, fInTried := true);
      var nKBucket := triedBucket(info.addr);
      EraseFromAllNew(id);
      if |vvTried[nKBucket]| < TRIED_BUCKET_SIZE {
        evicted, drawn := None, [];
        FillTried(old(mapInfo), mapAddr, vRandom, vvTried, old(vvNew),
                  nTried, nNew, nIdCount, triedBucket, id, info);
        vvTried := vvTried[nKBucket := vvTried[nKBucket] + [id]];
        nTried, nNew := nTried + 1, nNew - 1;
        mapInfo := mapInfo[id := info];
        assert mapInfo == old(mapInfo)[id := info];
        return;
      }
      evicted, drawn := Evict(id, nOrigin, info, old(mapInfo), old(vvNew));
    }

    /** The second half of MakeTried: the tried bucket is full. */
    method Evict(id: Id, nOrigin: nat, info: AddrInfo, ghost mi: InfoMap, ghost vn: seq<set<Id>>)
      returns (ghost evicted: Option<Id>, ghost drawn: seq<nat>)
      requires Consistent(mi, mapAddr, vRandom, vvTried, vn, nTried, nNew, nIdCount, triedBucket, -1)
      requires id in mi && !mi[id].fInTried && mi[id].nLastSuccess > 0 && info == mi[id].(nRefCount := 0, fInTried := true)
      requires nOrigin < |vn| && id in vn[nOrigin]
      requires mapInfo == mi[id := mi[id].(nRefCount := 0)] && vvNew == Without(vn, id)
      requires vvTried[triedBucket(info.addr)] != []
      modifies this`mapInfo, this`vvNew, this`vvTried
      ensures Valid()
      ensures evicted.Some? && Returned(mi, mapInfo, vn, vvNew, newBucket, nOrigin, id, evicted.value)
      ensures triedBucket(mi[evicted.value].addr) == triedBucket(mi[id].addr)
      ensures EvictedBy(mi, old(vvTried)[triedBucket(mi[id].addr)], drawn, evicted.value)
      ensures vvTried == InPlaceOf(mi, old(vvTried), triedBucket(mi[id].addr), drawn, id)
    {
      hide AddrOk, RandomOk, TriedOk, NewOk, TimesOk, CountsOk, IdsOk, Without, FullSample, EvictedBy, PlaceToEvict,
        OldestSampled, DrawnFromOwnPlace, Shuffled;
      TableSizes(mi, vvTried, vn, triedBucket);
      var nKBucket := triedBucket(info.addr);
      TriedFrame(mi, mapInfo, vvTried, triedBucket);
      TriedKnown(mi, vvTried, triedBucket, nKBucket);
      var nPos;
      nPos, drawn := SelectTried(nKBucket);
      ChosenBy(mapInfo, mi, old(vvTried)[nKBucket], drawn);
      TriedFrame(mapInfo, mi, vvTried, triedBucket);
      var e := vvTried[nKBucket][nPos];
      TriedAt(mi, vvTried, triedBucket, nKBucket, nPos);
      var infoOld := mapInfo[e].(fInTried := false, nRefCount := 1);
      var nUBucket := newBucket(infoOld.addr, infoOld.source);
      SwapTried(mi, mapAddr, vRandom, vvTried, vn, nTried, nNew, nIdCount, triedBucket, id, info,
                nPos, infoOld, nUBucket, nOrigin);
      assert mapInfo[e := infoOld][id := info] == mi[e := infoOld][id := info];
      mapInfo := mapInfo[e := infoOld];
      var nBack := if |vvNew[nUBucket]| < NEW_BUCKET_SIZE then nUBucket else nOrigin;
      vvNew := vvNew[nBack := vvNew[nBack] + {e}];
      vvTried := vvTried[nKBucket := PutAt(vvTried[nKBucket], nPos, id)];
      mapInfo := mapInfo[id := info];
      evicted := Some(e);
    }

    /** Overwrites the statistics of one entry. */
    method UpdateStats(id: Id, info: AddrInfo)
      requires Valid() && id in mapInfo
      requires SameEntry(mapInfo[id], info)
      requires info.nLastTry >= 0 && info.nLastSuccess >= 0 && (info.fInTried ==> info.nLastSuccess > 0)
      modifies this`mapInfo
      ensures Valid() && mapInfo == old(mapInfo)[id := info]
    {
      hide AddrOk, RandomOk, TriedOk, NewOk, TimesOk, CountsOk, IdsOk;
      TimesUpdate(mapInfo, id, info);
      StatsKeep(mapInfo, mapInfo[id := info], mapAddr, vRandom, vvTried, vvNew,
                nTried, nNew, nIdCount, triedBucket, -1);
      mapInfo := mapInfo[id := info];
    }

    /**
     * Records a successful connection. A known new address becomes tried; the
     * code's escape for an entry found in no bucket is never taken.
     */
    method Good_(addr: Service, nTime: int)
      returns (ghost evicted: Option<Id>, ghost drawn: seq<nat>, ghost nOrigin: nat)
      requires Valid() && nTime > 0
      modifies this
      ensures Valid()
      ensures (forall id :: id in old(mapInfo) ==> old(mapInfo)[id].addr != addr) ==>
        mapInfo == old(mapInfo) && vvNew == old(vvNew) && vvTried == old(vvTried) && evicted.None?
      // an entry that is not tried yet leaves every new bucket for the tried one of its address
      ensures forall id :: id in old(mapInfo) && old(mapInfo)[id].addr == addr ==>
        var k, was := triedBucket(addr), old(mapInfo)[id];
        var good := was.(nLastSuccess := nTime, nLastTry := nTime, nTime := ToTime32(nTime), nAttempts := 0);
        && |old(vvTried)| == TRIED_BUCKET_COUNT
        && (was.fInTried ==> vvNew == old(vvNew) && vvTried == old(vvTried) && evicted.None?)
        && (!was.fInTried ==>
              && (evicted.None? <==> |old(vvTried)[k]| < TRIED_BUCKET_SIZE)
              && (evicted.None? ==> vvNew == Without(old(vvNew), id) && vvTried == InTried(old(vvTried), k, id))
              && (evicted.Some? ==> var mi := old(mapInfo)[id := good];
                    && EvictedBy(mi, old(vvTried)[k], drawn, evicted.value)
                    && vvTried == InPlaceOf(mi, old(vvTried), k, drawn, id)
                    && nOrigin < |old(vvNew)| && id in old(vvNew)[nOrigin]
                    && Returned(mi, mapInfo, old(vvNew), vvNew, newBucket, nOrigin, id, evicted.value)))
      ensures forall id :: id in old(mapInfo) && old(mapInfo)[id].addr == addr ==>
        && id in mapInfo && evicted != Some(id)
        && mapInfo[id] == old(mapInfo)[id].(nLastSuccess := nTime, nLastTry := nTime, nTime := ToTime32(nTime),
                            nAttempts := 0, nRefCount := 0, fInTried := true)
      ensures forall id :: id in old(mapInfo) && old(mapInfo)[id].addr != addr ==>
        && id in mapInfo
        && mapInfo[id] == if evicted == Some(id) then old(mapInfo)[id].(nRefCount := 1, fInTried := false)
                          else old(mapInfo)[id]
    {
      hide RandomOk, TriedOk, NewOk, TimesOk, CountsOk, IdsOk, EvictedBy, FullSample, InPlaceOf, InTried, Without, Returned;
      evicted, drawn, nOrigin := None, [], 0;
      TableSizes(mapInfo, vvTried, vvNew, triedBucket);
      var r := Find(addr.ip);
      OneIdPerAddress(mapInfo, mapAddr, addr.ip);
      if r.None? || mapInfo[r.value].addr != addr {
        return;
      }
      var nId := r.value;
      UpdateStats(nId, mapInfo[nId].(nLastSuccess := nTime, nLastTry := nTime, nTime := ToTime32(nTime), nAttempts := 0));
      if mapInfo[nId].fInTried {
        TriedHasNoReferences(mapInfo, vvNew, nId);
        return;
      }
      var nUBucket := FindBucket(nId);
      nOrigin := nUBucket;
      ghost var mi, vn := mapInfo, vvNew;
      evicted, drawn := MakeTried(nId, nUBucket);
      if evicted.Some? {
        ReturnedMeans(mi, mapInfo, vn, vvNew, newBucket, nOrigin, nId, evicted.value);
      }
    }

    /** A new bucket that holds the entry, searched from a random start. */
    method FindBucket(nId: Id) returns (nUBucket: nat)
      requires NewOk(mapInfo, vvNew, -1) && nId in mapInfo && !mapInfo[nId].fInTried
      ensures nUBucket < |vvNew| && nId in vvNew[nUBucket]
    {
      NewEntryHasBucket(mapInfo, vvNew, nId);
      ghost var b :| 0 <= b < |vvNew| && nId in vvNew[b];
      assert |vvNew| == NEW_BUCKET_COUNT;
      var nRnd: nat :| nRnd < |vvNew|;
      var n := 0;
      while n < |vvNew|
        invariant n <= |vvNew|
        invariant n <= Offset(b, nRnd, |vvNew|)
      {
        var nB := (n + nRnd) % |vvNew|;
        if nId in vvNew[nB] {
          return nB;
        }
        n := n + 1;
      }
      assert false;
    }

    method Attempt_(addr: Service, nTime: int)
      requires Valid() && nTime >= 0
      modifies this`mapInfo
      ensures Valid() && mapInfo.Keys == old(mapInfo).Keys
      ensures forall id :: id in mapInfo ==>
                var was := old(mapInfo)[id];
                mapInfo[id] == if was.addr == addr then was.(nLastTry := nTime, nAttempts := was.nAttempts + 1) else was
    {
      hide AddrOk, RandomOk, TriedOk, NewOk, CountsOk, IdsOk;
      var r := Find(addr.ip);
      OneIdPerAddress(mapInfo, mapAddr, addr.ip);
      if r.None? || mapInfo[r.value].addr != addr {
        return;
      }
      UpdateStats(r.value, mapInfo[r.value].(nLastTry := nTime, nAttempts := mapInfo[r.value].nAttempts + 1));
    }

    method Connected_(addr: Service, nTime: int)
      requires Valid()
      modifies this`mapInfo
      ensures Valid() && mapInfo.Keys == old(mapInfo).Keys
      ensures forall id :: id in mapInfo ==>
                var was := old(mapInfo)[id];
                mapInfo[id] == if was.addr == addr && nTime - was.nTime > 20 * 60 then was.(nTime := ToTime32(nTime)) else was
    {
      hide AddrOk, RandomOk, TriedOk, NewOk, CountsOk, IdsOk;
      var r := Find(addr.ip);
      OneIdPerAddress(mapInfo, mapAddr, addr.ip);
      if r.None? || mapInfo[r.value].addr != addr {
        return;
      }
      if nTime - mapInfo[r.value].nTime > 20 * 60 {
        UpdateStats(r.value, mapInfo[r.value].(nTime := ToTime32(nTime)));
      }
    }

    /**
     * Gives the entry one more new bucket, the one its address has for this
     * source, unless it is there already; a full bucket loses an entry first.
     */
    method Place(nId: Id, source: NetAddr, nNow: int) returns (ghost victim: Option<Id>)
      requires AddrOk(mapInfo, mapAddr) && RandomOk(mapInfo, vRandom) && TriedOk(mapInfo, vvTried, triedBucket)
      requires TimesOk(mapInfo) && CountsOk(mapInfo, nTried, nNew) && IdsOk(mapInfo, nIdCount)
      requires nId in mapInfo && !mapInfo[nId].fInTried && mapInfo[nId].nRefCount < NEW_BUCKETS_PER_ADDRESS
      requires NewOk(mapInfo, vvNew, -1) || (mapInfo[nId].nRefCount == 0 && NewOk(mapInfo - {nId}, vvNew, -1))
      modifies this`mapInfo, this`mapAddr, this`vRandom, this`nNew, this`vvNew
      ensures Valid() && nId in mapInfo && nId in vvNew[newBucket(mapInfo[nId].addr, source)]
      ensures Placed(old(mapInfo), old(vvNew), mapInfo, vvNew, newBucket(old(mapInfo)[nId].addr, source), nId, nNow, victim)
      ensures victim != Some(nId)
      ensures mapInfo[nId] == old(mapInfo)[nId].(nRandomPos := mapInfo[nId].nRandomPos, nRefCount := mapInfo[nId].nRefCount)
      ensures forall id :: id in old(mapInfo) && id != nId && victim != Some(id) ==>
                id in mapInfo && mapInfo[id] == old(mapInfo)[id].(nRandomPos := mapInfo[id].nRandomPos)
    {
      hide AddrOk, RandomOk, TriedOk, NewOk, TimesOk, CountsOk, IdsOk, Dropped, Placed, IsTerrible, OldestDrawn;
      victim := None;
      ghost var mi, vn := mapInfo, vvNew;
      var nUBucket := newBucket(mapInfo[nId].addr, source);
      TableSizes(mapInfo, vvTried, vvNew, triedBucket);
      TableSizes(mapInfo - {nId}, vvTried, vvNew, triedBucket) by { TriedFrame(mapInfo, mapInfo - {nId}, vvTried, triedBucket); }
      if nId in vvNew[nUBucket] {
        AlreadyPlaced(mapInfo, vvNew, nId, nUBucket);
        PlacedBefore(mi, vn, nUBucket, nId, nNow);
        return;
      }
      victim := MakeRoom(nId, nUBucket, nNow);
      SettlePending(mapInfo, vvNew, nUBucket, nId);
      vvNew := vvNew[nUBucket := vvNew[nUBucket] + {nId}];
      PlacedEntry(mi, vn, mapInfo, vvNew, nUBucket, nId, nNow, victim);
    }

    /** Counts the reference that the entry is about to get and, when the bucket is full, drops another entry from it. */
    method MakeRoom(nId: Id, nUBucket: nat, nNow: int) returns (ghost victim: Option<Id>)
      requires AddrOk(mapInfo, mapAddr) && RandomOk(mapInfo, vRandom) && TriedOk(mapInfo, vvTried, triedBucket)
      requires TimesOk(mapInfo) && CountsOk(mapInfo, nTried, nNew) && IdsOk(mapInfo, nIdCount)
      requires nId in mapInfo && !mapInfo[nId].fInTried && mapInfo[nId].nRefCount < NEW_BUCKETS_PER_ADDRESS
      requires NewOk(mapInfo, vvNew, -1) || (mapInfo[nId].nRefCount == 0 && NewOk(mapInfo - {nId}, vvNew, -1))
      requires |vvNew| == NEW_BUCKET_COUNT && nUBucket < |vvNew| && nId !in vvNew[nUBucket]
      modifies this`mapInfo, this`mapAddr, this`vRandom, this`nNew, this`vvNew
      ensures Holds(nId) && |vvNew| == NEW_BUCKET_COUNT && nId !in vvNew[nUBucket] && |vvNew[nUBucket]| < NEW_BUCKET_SIZE
      ensures nId in mapInfo
      ensures Placed(old(mapInfo), old(vvNew), mapInfo, vvNew[nUBucket := vvNew[nUBucket] + {nId}], nUBucket, nId, nNow, victim)
    {
      hide AddrOk, RandomOk, TriedOk, NewOk, TimesOk, CountsOk, IdsOk, Dropped, Placed, IsTerrible, OldestDrawn;
      victim := None;
      ghost var mi, vn := mapInfo, vvNew;
      ghost var promised := mapInfo[nId := mapInfo[nId].(nRefCount := mapInfo[nId].nRefCount + 1)];
      PromiseAnyReference(mapInfo, vvNew, nId);
      BucketBound(promised, vvNew, nId, nUBucket);
      mapInfo := mapInfo[nId := mapInfo[nId].(nRefCount := mapInfo[nId].nRefCount + 1)];
      FlagsFrame(mi, mapInfo, mapAddr, vRandom, nIdCount);
      TriedFrame(mi, mapInfo, vvTried, triedBucket);
      OneEntryFrame(mi, nId, mapInfo[nId].nRefCount, nTried, nNew);
      if |vvNew[nUBucket]| == NEW_BUCKET_SIZE {
        BucketEntriesNew(mapInfo, vvNew, nId, nUBucket);
        var r;
        ghost var dropped, n;
        r, dropped, n := ShrinkNew(nUBucket, nNow, nId);
        victim := Some(dropped);
        DroppedBy(promised, mi, vn[nUBucket], nNow, dropped, r == 0, n);
        PlacedInFull(mi, vn, mapInfo, vvNew, nUBucket, nId, nNow, dropped);
      } else {
        PlacedInRoom(mi, vn, nUBucket, nId, nNow);
      }
    }

    /** Some id not in mi now describes the address and is in its bucket for this source. */
    ghost predicate JustAdded(mi: InfoMap, addr: Service, nServices: set<nat>, nTime: Time32, source: NetAddr, nTimePenalty: int)
      reads this
    {
      |vvNew| == NEW_BUCKET_COUNT &&
      exists id ::
        && id in mapInfo && id !in mi && id in vvNew[newBucket(addr, source)]
        && mapInfo[id] == AddrInfo(addr, nServices, ToTime32(Max(0, nTime - nTimePenalty)), 0, source, 0, 0,
                                   mapInfo[id].nRefCount, false, mapInfo[id].nRandomPos)
    }

    /**
     * The new entry nId has the penalised time and is in the bucket its address has for this source, and in no other;
     * an entry of that bucket leaves exactly when it was full, and nothing else changes.
     */
    ghost predicate AddedAs(mi: InfoMap, vn: seq<set<Id>>, addr: Service, nServices: set<nat>, nTime: Time32, source: NetAddr,
                            nTimePenalty: int, nId: Id, nNow: int, victim: Option<Id>)
      reads this
    {
      var b := newBucket(addr, source);
      && nId !in mi && |vn| == NEW_BUCKET_COUNT && (victim.Some? <==> |vn[b]| == NEW_BUCKET_SIZE) && nId !in vn[b]
      && exists pos :: Placed(NewEntry(mi, addr, nServices, nTime, source, nTimePenalty, nId, pos), vn, mapInfo, vvNew, b,
                              nId, nNow, victim)
    }

    /** Whether hearing of a known address again may give it one more bucket, and the test of chance is passed. */
    ghost predicate GainsBucket(was: AddrInfo, nServices: set<nat>, nTime: Time32, nTimePenalty: int, nNow: int,
                                rand: nat -> nat)
    {
      var info := Refreshed(was, nServices, nTime, nTimePenalty, nNow);
      && nTime != 0 && (info.nTime == 0 || nTime > info.nTime)
      && !was.fInTried && 0 <= was.nRefCount < NEW_BUCKETS_PER_ADDRESS && rand(Power2(was.nRefCount)) == 0
    }

    /**
     * Adds an address heard of from `source`, or refreshes a known one. The
     * result tells whether it is new. `routable` is a property of the address.
     */
    method Add_(addr: Service, nServices: set<nat>, nTime: Time32, routable: bool, source: NetAddr, nTimePenalty: int, nNow: int,
                rand: nat -> nat)
      returns (fNew: bool, ghost victim: Option<Id>)
      requires Valid() && forall n :: n > 0 ==> rand(n) < n
      modifies this
      ensures Valid() && vvTried == old(vvTried) && nTried == old(nTried)
      ensures !routable || addr.port == 0 ==> vvNew == old(vvNew) && victim.None?
      ensures fNew ==> exists nId ::
        AddedAs(old(mapInfo), old(vvNew), addr, nServices, nTime, source, nTimePenalty, nId, nNow, victim)
      // a known address is refreshed, and gains at most one bucket
      ensures routable && addr.port != 0 ==> forall nId :: nId in old(mapInfo) && old(mapInfo)[nId].addr.ip == addr.ip ==>
        var was := old(mapInfo)[nId];
        var refreshed := old(mapInfo)[nId := Refreshed(was, nServices, nTime, nTimePenalty, nNow)];
        if GainsBucket(was, nServices, nTime, nTimePenalty, nNow, rand) then
          Placed(refreshed, old(vvNew), mapInfo, vvNew, newBucket(was.addr, source), nId, nNow, victim)
        else mapInfo == refreshed && vvNew == old(vvNew) && victim.None?
      ensures !routable || addr.port == 0 ==> !fNew && mapInfo == old(mapInfo)
      ensures fNew <==> routable && addr.port != 0 && forall id :: id in old(mapInfo) ==> old(mapInfo)[id].addr.ip != addr.ip
      ensures fNew ==> JustAdded(old(mapInfo), addr, nServices, nTime, source, nTimePenalty)
      ensures forall id :: id in old(mapInfo) && victim != Some(id) ==>
        var was := old(mapInfo)[id];
        && id in mapInfo
        && mapInfo[id] ==
             (if routable && addr.port != 0 && was.addr.ip == addr.ip then
                Refreshed(was, nServices, nTime, nTimePenalty, nNow).(nRefCount := mapInfo[id].nRefCount)
              else was).(nRandomPos := mapInfo[id].nRandomPos)
    {
      hide RandomOk, TriedOk, NewOk, CountsOk, IdsOk, AddrOk, TimesOk, Placed, GainsBucket, Refreshed, AddedAs;
      victim := None;
      if !routable || addr.port == 0 {
        return false, None;
      }
      var r := Find(addr.ip);
      OneIdPerAddress(mapInfo, mapAddr, addr.ip);
      if r.None? {
        fNew := true;
        ghost var created;
        created, victim := AddUnknown(addr, nServices, nTime, source, nTimePenalty, nNow);
        return;
      }
      fNew := false;
      assert forall id :: id in old(mapInfo) && old(mapInfo)[id].addr.ip == addr.ip ==> id == r.value;
      victim := HearAgain(r.value, nServices, nTime, source, nTimePenalty, nNow, rand);
    }

    /** A known address: its time and services are brought up to date, and on newer information it may gain a bucket. */
    method HearAgain(nId: Id, nServices: set<nat>, nTime: Time32, source: NetAddr, nTimePenalty: int, nNow: int, rand: nat -> nat)
      returns (ghost victim: Option<Id>)
      requires Valid() && nId in mapInfo && forall n :: n > 0 ==> rand(n) < n
      modifies this`mapInfo, this`mapAddr, this`vRandom, this`nNew, this`vvNew
      ensures Valid()
      ensures var was := old(mapInfo)[nId];
        var refreshed := old(mapInfo)[nId := Refreshed(was, nServices, nTime, nTimePenalty, nNow)];
        if GainsBucket(was, nServices, nTime, nTimePenalty, nNow, rand) then
          Placed(refreshed, old(vvNew), mapInfo, vvNew, newBucket(was.addr, source), nId, nNow, victim)
        else mapInfo == refreshed && vvNew == old(vvNew) && victim.None?
      ensures nId in mapInfo && victim != Some(nId)
      ensures mapInfo[nId] == Refreshed(old(mapInfo)[nId], nServices, nTime, nTimePenalty, nNow)
                              .(nRefCount := mapInfo[nId].nRefCount, nRandomPos := mapInfo[nId].nRandomPos)
      ensures forall id :: id in old(mapInfo) && id != nId && victim != Some(id) ==>
        id in mapInfo && mapInfo[id] == old(mapInfo)[id].(nRandomPos := mapInfo[id].nRandomPos)
    {
      hide RandomOk, TriedOk, NewOk, CountsOk, IdsOk, AddrOk, Placed;
      victim := None;
      UpdateStats(nId, Refreshed(mapInfo[nId], nServices, nTime, nTimePenalty, nNow));
      var info := mapInfo[nId];
      if nTime == 0 || (info.nTime != 0 && nTime <= info.nTime) {
        return;
      }
      if info.fInTried || info.nRefCount == NEW_BUCKETS_PER_ADDRESS {
        return;
      }
      NewHasReferences(mapInfo, vvNew, nId);
      var nFactor := Power2(info.nRefCount);
      if nFactor > 1 {
        if rand(nFactor) != 0 {
          return;
        }
      }
      victim := Place(nId, source, nNow);
    }

    method AddUnknown(addr: Service, nServices: set<nat>, nTime: Time32, source: NetAddr, nTimePenalty: int, nNow: int)
      returns (ghost nId: Id, ghost victim: Option<Id>)
      requires Valid() && addr.ip !in mapAddr
      modifies this
      ensures Valid() && vvTried == old(vvTried) && nTried == old(nTried)
      ensures AddedAs(old(mapInfo), old(vvNew), addr, nServices, nTime, source, nTimePenalty, nId, nNow, victim)
      ensures JustAdded(old(mapInfo), addr, nServices, nTime, source, nTimePenalty)
      ensures forall id :: id in old(mapInfo) && victim != Some(id) ==>
        id in mapInfo && mapInfo[id] == old(mapInfo)[id].(nRandomPos := mapInfo[id].nRandomPos)
    {
      hide AddrOk, RandomOk, TriedOk, NewOk, TimesOk, CountsOk, IdsOk, Dropped, Placed;
      ghost var mi, vn, pos := mapInfo, vvNew, |vRandom|;
      TableSizes(mapInfo, vvTried, vvNew, triedBucket);
      var created := CreatePenalised(addr, nServices, nTime, source, nTimePenalty);
      nId := created;
      assert mapInfo == NewEntry(mi, addr, nServices, nTime, source, nTimePenalty, created, pos);
      NotInBucket(mi, vn, created, newBucket(addr, source));
      victim := Place(created, source, nNow);
      PlacedNew(mi, vn, mapInfo, vvNew, addr, nServices, nTime, source, nTimePenalty, created, pos, newBucket(addr, source),
                nNow, victim);
    }

    /** An entry with its penalised time, counted as new but in no bucket yet. */
    method CreatePenalised(addr: Service, nServices: set<nat>, nTime: Time32, source: NetAddr, nTimePenalty: int)
      returns (nId: Id)
      requires Valid() && addr.ip !in mapAddr
      modifies this`nIdCount, this`mapInfo, this`mapAddr, this`vRandom, this`nNew
      ensures AddrOk(mapInfo, mapAddr) && RandomOk(mapInfo, vRandom) && TriedOk(mapInfo, vvTried, triedBucket)
      ensures TimesOk(mapInfo) && CountsOk(mapInfo, nTried, nNew) && IdsOk(mapInfo, nIdCount)
      ensures nId !in old(mapInfo) && mapInfo - {nId} == old(mapInfo) && NewOk(mapInfo - {nId}, vvNew, -1)
      ensures mapInfo == old(mapInfo)[nId :=
        AddrInfo(addr, nServices, ToTime32(Max(0, nTime - nTimePenalty)), 0, source, 0, 0, 0, false, |old(vRandom)|)]
    {
      hide AddrOk, RandomOk, TriedOk, NewOk, TimesOk, CountsOk, IdsOk;
      ghost var mi := mapInfo;
      nId := Create(addr, nServices, nTime, source);
      var info := mapInfo[nId].(nTime := ToTime32(Max(0, mapInfo[nId].nTime - nTimePenalty)));
      FlagsFrame(mapInfo, mapInfo[nId := info], mapAddr, vRandom, nIdCount);
      AddThenRemove(mi, nId, mapInfo[nId], info);
      mapInfo := mapInfo[nId := info];
      nNew := nNew + 1;
      TriedFrame(mi, mapInfo, vvTried, triedBucket);
      NewEntryFrame(mi, nId, info, nTried, old(nNew));
    }

    /** Shuffles a sample to the front of vRandom and returns its addresses, all different. */
    method GetAddr_() returns (vAddr: seq<Service>)
      requires Valid()
      modifies this`mapInfo, this`vRandom
      ensures Valid() && SameButPlaces(old(mapInfo), mapInfo)
      ensures |vAddr| == var n := GETADDR_MAX_PCT * |vRandom| / 100; if n > GETADDR_MAX then GETADDR_MAX else n
      ensures forall i :: 0 <= i < |vAddr| ==> Known(mapInfo, vAddr[i])
      ensures forall i, j :: 0 <= i < j < |vAddr| ==> vAddr[i].ip != vAddr[j].ip
    {
      hide AddrOk, RandomOk, TriedOk, NewOk, TimesOk, CountsOk, IdsOk, SameButPlaces, Drawn, Swapped;
      var nNodes := GETADDR_MAX_PCT * |vRandom| / 100;
      if nNodes > GETADDR_MAX {
        nNodes := GETADDR_MAX;
      }
      assert nNodes <= |vRandom|;
      vAddr := [];
      NoneDrawn(mapInfo, vRandom);
      for n := 0 to nNodes
        invariant |vRandom| == |old(vRandom)| && |vAddr| == n
        invariant RandomOk(mapInfo, vRandom) && SameButPlaces(old(mapInfo), mapInfo)
        invariant Drawn(mapInfo, vRandom, vAddr)
      {
        var nRndPos: nat :| n <= nRndPos < |vRandom|;
        ghost var mi, vr := mapInfo, vRandom;
        SwapRandom(n, nRndPos);
        DrawOne(mi, vr, mapInfo, nRndPos, vAddr);
        SameTransitive(old(mapInfo), mi, mapInfo);
        vAddr := vAddr + [mapInfo[vRandom[n]].addr];
      }
      PlacesKeep(old(mapInfo), mapInfo, mapAddr, vvTried, vvNew, nTried, nNew, nIdCount, triedBucket);
      DrawnDiffer(mapInfo, mapAddr, vRandom, vAddr);
    }
  }

  lemma AddThenRemove(mi: InfoMap, id: Id, first: AddrInfo, info: AddrInfo)
    requires id !in mi
    ensures mi[id := first][id := info] == mi[id := info] && mi[id := info] - {id} == mi
  {
  }

  ghost predicate Known(mi: InfoMap, addr: Service) {
    exists id :: id in mi && mi[id].addr == addr
  }

  /** vAddr lists the addresses of the first entries of the random order. */
  ghost predicate Drawn(mi: InfoMap, vr: seq<Id>, vAddr: seq<Service>) {
    |vAddr| <= |vr| && forall i :: 0 <= i < |vAddr| ==> vr[i] in mi && vAddr[i] == mi[vr[i]].addr
  }

  lemma NoneDrawn(mi: InfoMap, vr: seq<Id>)
    ensures Drawn(mi, vr, []) && SameButPlaces(mi, mi)
  {
  }

  lemma SameTransitive(a: InfoMap, b: InfoMap, c: InfoMap)
    requires SameButPlaces(a, b) && SameButPlaces(b, c)
    ensures SameButPlaces(a, c)
  {
  }

  /** One more, from anywhere behind those drawn so far. */
  lemma DrawOne(mi: InfoMap, vr: seq<Id>, mi': InfoMap, r: nat, vAddr: seq<Service>)
    requires Drawn(mi, vr, vAddr) && |vAddr| <= r < |vr| && SameButPlaces(mi, mi')
    requires RandomOk(mi', Swapped(vr, |vAddr|, r))
    ensures var n, vr' := |vAddr|, Swapped(vr, |vAddr|, r);
      |vr'| == |vr| && vr'[n] in mi' && Drawn(mi', vr', vAddr + [mi'[vr'[n]].addr])
  {
  }

  lemma DrawnDiffer(mi: InfoMap, ma: map<NetAddr, Id>, vr: seq<Id>, vAddr: seq<Service>)
    requires AddrOk(mi, ma) && RandomOk(mi, vr) && Drawn(mi, vr, vAddr)
    ensures forall i :: 0 <= i < |vAddr| ==> Known(mi, vAddr[i])
    ensures forall i, j :: 0 <= i < j < |vAddr| ==> vAddr[i].ip != vAddr[j].ip
  {
    forall i | 0 <= i < |vAddr|
      ensures Known(mi, vAddr[i])
    {
      assert vr[i] in mi && mi[vr[i]].addr == vAddr[i];
    }
    forall i, j | 0 <= i < j < |vAddr|
      ensures vAddr[i].ip != vAddr[j].ip
    {
      PlacesDiffer(mi, ma, vr, i, j);
    }
  }

  /** How far past a random start the bucket b is, going round. */
  function Offset(b: nat, nRnd: nat, n: nat): nat
    requires b < n && nRnd < n
  {
    if nRnd <= b then b - nRnd else b + n - nRnd
  }

  /** The table with an entry that has just been created for the address. */
  ghost function NewEntry(mi: InfoMap, addr: Service, nServices: set<nat>, nTime: Time32, source: NetAddr, nTimePenalty: int,
                          nId: Id, pos: int): InfoMap
  {
    mi[nId := AddrInfo(addr, nServices, ToTime32(Max(0, nTime - nTimePenalty)), 0, source, 0, 0, 0, false, pos)]
  }

  /** An unknown id is in no bucket. */
  lemma NotInBucket(mi: InfoMap, vn: seq<set<Id>>, id: Id, b: nat)
    requires NewOk(mi, vn, -1) && id !in mi && b < |vn|
    ensures id !in vn[b]
  {
  }

  /** In hours and days: when the time is brought up to date. */
  lemma RefreshedMeans(info: AddrInfo, nServices: set<nat>, nTime: Time32, nTimePenalty: int, nNow: int)
    ensures var r := Refreshed(info, nServices, nTime, nTimePenalty, nNow);
      var hold := if nNow - nTime < 86_400 then 3600 else 86_400;
      && r == info.(nServices := r.nServices, nTime := r.nTime) && r.nServices == info.nServices + nServices
      && (nTime == 0 || (info.nTime != 0 && info.nTime >= nTime - hold - nTimePenalty) ==> r.nTime == info.nTime)
      && (nTime != 0 && (info.nTime == 0 || info.nTime < nTime - hold - nTimePenalty) && 0 <= nTimePenalty ==>
            r.nTime == Max(0, nTime - nTimePenalty))
  {
  }

  /** What hearing of a known address again does to its services and time. */
  function Refreshed(info: AddrInfo, nServices: set<nat>, nTime: Time32, nTimePenalty: int, nNow: int): AddrInfo {
    var nUpdateInterval := if nNow - nTime < 24 * 60 * 60 then 60 * 60 else 24 * 60 * 60;
    info.(nServices := info.nServices + nServices,
          nTime := if nTime != 0 && (info.nTime == 0 || info.nTime < nTime - nUpdateInterval - nTimePenalty) then
                     ToTime32(Max(0, nTime - nTimePenalty))
                   else info.nTime)
  }

  /** What placing a new entry means for it and for the others. */
  lemma PlacedNew(mi: InfoMap, vn: seq<set<Id>>, mi': InfoMap, vn': seq<set<Id>>, addr: Service, nServices: set<nat>,
                  nTime: Time32, source: NetAddr, nTimePenalty: int, nId: Id, pos: int, b: nat, nNow: int, victim: Option<Id>)
    requires nId !in mi && b < |vn| && nId !in vn[b]
    requires Placed(NewEntry(mi, addr, nServices, nTime, source, nTimePenalty, nId, pos), vn, mi', vn', b, nId, nNow, victim)
    ensures |vn'| == |vn| && (victim.Some? <==> |vn[b]| == NEW_BUCKET_SIZE)
    ensures nId in mi' && nId in vn'[b] && mi'[nId].nRefCount == 1
    ensures mi'[nId] == AddrInfo(addr, nServices, ToTime32(Max(0, nTime - nTimePenalty)), 0, source, 0, 0,
                                 mi'[nId].nRefCount, false, mi'[nId].nRandomPos)
    ensures forall id :: id in mi && victim != Some(id) ==>
      id in mi' && mi'[id] == mi[id].(nRandomPos := mi'[id].nRandomPos)
  {
    hide Dropped;
  }

  lemma PlacedBefore(mi: InfoMap, vn: seq<set<Id>>, b: nat, nId: Id, nNow: int)
    requires b < |vn| && nId in mi && nId in vn[b]
    ensures Placed(mi, vn, mi, vn, b, nId, nNow, None)
  {
    assert vn[b] - {} + {nId} == vn[b];
  }

  lemma PlacedInRoom(mi: InfoMap, vn: seq<set<Id>>, b: nat, nId: Id, nNow: int)
    requires b < |vn| && nId in mi && nId !in vn[b] && |vn[b]| != NEW_BUCKET_SIZE
    ensures Placed(mi, vn, mi[nId := mi[nId].(nRefCount := mi[nId].nRefCount + 1)], vn[b := vn[b] + {nId}],
                   b, nId, nNow, None)
  {
    assert vn[b] - Gone(None) + {nId} == vn[b] + {nId};
  }

  lemma PlacedInFull(mi: InfoMap, vn: seq<set<Id>>, mi': InfoMap, vn1: seq<set<Id>>, b: nat, nId: Id, nNow: int, v: Id)
    requires b < |vn| && vn1 == vn[b := vn[b] - {v}] && nId in mi && nId !in vn[b] && |vn[b]| == NEW_BUCKET_SIZE && Dropped(mi, vn[b], nNow, v)
    requires var promised := mi[nId := mi[nId].(nRefCount := mi[nId].nRefCount + 1)];
      && mi'.Keys <= promised.Keys && v in promised && (v in mi' <==> promised[v].nRefCount > 1)
      && (v in mi' ==> mi'[v] == promised[v].(nRefCount := promised[v].nRefCount - 1))
      && forall id :: id in promised && id != v ==>
           id in mi' && mi'[id] == promised[id].(nRandomPos := mi'[id].nRandomPos)
    ensures |vn1[b]| < NEW_BUCKET_SIZE && Placed(mi, vn, mi', vn1[b := vn1[b] + {nId}], b, nId, nNow, Some(v))
    ensures nId in mi' && nId !in vn1[b]
  {
    hide IsTerrible, OldestDrawn;
    assert v in vn[b];
    hide Dropped;
    assert vn1[b := vn1[b] + {nId}] == vn[b := vn[b] - {v} + {nId}];
  }

  lemma PlacedEntry(mi: InfoMap, vn: seq<set<Id>>, mi': InfoMap, vn': seq<set<Id>>, b: nat, nId: Id, nNow: int,
                    victim: Option<Id>)
    requires Placed(mi, vn, mi', vn', b, nId, nNow, victim)
    ensures nId in mi' && nId in vn'[b] && victim != Some(nId) && mi'.Keys <= mi.Keys
    ensures forall id :: id in mi && victim != Some(id) ==> id in mi'
    ensures forall id :: id in mi && victim != Some(id) && id != nId ==>
      mi'[id] == mi[id].(nRandomPos := mi'[id].nRandomPos)
    ensures mi'[nId] == mi[nId].(nRandomPos := mi'[nId].nRandomPos, nRefCount := mi'[nId].nRefCount)
  {
    hide Dropped;
  }

  /** The entry placed, which is not in the bucket, has no part in what leaves it. */
  lemma DroppedBy(mi: InfoMap, mi': InfoMap, bucket: set<Id>, nNow: int, v: Id, terrible: bool, n: seq<nat>)
    requires v in bucket && forall id :: id in bucket ==> id in mi && id in mi' && mi'[id] == mi[id]
    requires if terrible then IsTerrible(mi[v], nNow)
             else (forall id :: id in bucket ==> !IsTerrible(mi[id], nNow)) && |n| == 4 && OldestDrawn(mi, bucket, n, v)
    ensures Dropped(mi', bucket, nNow, v)
  {
    hide IsTerrible, Distinct;
    if !terrible {
      var order :| Enumerates(order, bucket) && OldestAt(mi, order, n, v);
      assert forall k :: 0 <= k < |n| ==> order[n[k]] in order;
      assert OldestAt(mi', order, n, v);
      assert OldestDrawn(mi', bucket, n, v);
    }
  }

  lemma TriedKnown(mi: InfoMap, vt: seq<seq<Id>>, h: TriedHash, k: nat)
    requires TriedOk(mi, vt, h) && k < |vt|
    ensures AllKnown(mi, vt[k]) && Distinct(vt[k])
  {
    forall i | 0 <= i < |vt[k]|
      ensures vt[k][i] in mi
    {
      assert TriedEntry(mi, h, k, vt[k][i]);
    }
  }

  lemma NothingDrawn(mi: InfoMap, v: seq<Id>)
    ensures DrawsOk(|v|, []) && Shuffled(v, []) == v && Sample(v, []) == [] && AllKnown(mi, [])
  {
  }

  lemma KnownAt(mi: InfoMap, v: seq<Id>, k: nat)
    requires AllKnown(mi, v) && k < |v|
    ensures v[k] in mi
  {
  }

  lemma KnownMore(mi: InfoMap, v: seq<Id>, x: Id)
    requires AllKnown(mi, v) && x in mi
    ensures AllKnown(mi, v + [x])
  {
  }

  /**
   * e left the tried bucket v by these draws; it is the least recently successful of those sampled exactly when that
   * one was drawn from its round's own place.
   */
  ghost predicate EvictedBy(mi: InfoMap, v: seq<Id>, drawn: seq<nat>, e: Id) {
    && FullSample(mi, v, drawn) && e == Evicted(mi, v, drawn)
    && (e == OldestSampled(mi, v, drawn) <==> DrawnFromOwnPlace(mi, v, drawn))
  }

  /** The tried table with one entry more in a bucket. */
  function InTried(vt: seq<seq<Id>>, k: nat, id: Id): seq<seq<Id>>
    requires k < |vt|
  {
    vt[k := vt[k] + [id]]
  }

  /** The tried table with the entry in the place that the draws give, in the bucket as they have shuffled it. */
  ghost function InPlaceOf(mi: InfoMap, vt: seq<seq<Id>>, k: nat, drawn: seq<nat>, id: Id): seq<seq<Id>>
    requires k < |vt| && FullSample(mi, vt[k], drawn)
  {
    vt[k := PutAt(Shuffled(vt[k], drawn), PlaceToEvict(mi, vt[k], drawn), id)]
  }

  lemma ChosenBy(mi: InfoMap, mi': InfoMap, v: seq<Id>, drawn: seq<nat>)
    requires FullSample(mi, v, drawn)
    requires forall k :: 0 <= k < |v| ==> v[k] in mi' && mi'[v[k]].nLastSuccess == mi[v[k]].nLastSuccess
    ensures EvictedBy(mi', v, drawn, Shuffled(v, drawn)[PlaceToEvict(mi, v, drawn)])
    ensures FullSample(mi', v, drawn) && PlaceToEvict(mi', v, drawn) == PlaceToEvict(mi, v, drawn)
  {
    SameChoice(mi, mi', v, drawn);
    EvictedIsOldestIff(mi', v, drawn);
  }

  lemma MultisetDistinct(s: seq<Id>)
    ensures Distinct(s) <==> forall x :: multiset(s)[x] <= 1
  {
    if Distinct(s) {
      DistinctCounts(s);
    } else {
      var i, j :| 0 <= i < j < |s| && s[i] == s[j];
      assert s == s[..i] + [s[i]] + s[i + 1..j] + [s[j]] + s[j + 1..];
      assert multiset(s)[s[i]] >= 2;
    }
  }

  lemma {:induction false} DistinctCounts(s: seq<Id>)
    requires Distinct(s)
    ensures forall x :: multiset(s)[x] <= 1
  {
    if s != [] {
      DistinctCounts(s[1..]);
      assert s == [s[0]] + s[1..];
      assert s[0] !in s[1..];
    }
  }

  /** Reordering a tried bucket. */
  lemma PermutedTried(mi: InfoMap, vt: seq<seq<Id>>, h: TriedHash, k: nat, s: seq<Id>)
    requires TriedOk(mi, vt, h) && k < |vt| && multiset(s) == multiset(vt[k])
    ensures TriedOk(mi, vt[k := s], h)
  {
    MultisetDistinct(vt[k]);
    MultisetDistinct(s);
    assert |multiset(s)| == |s| && |multiset(vt[k])| == |vt[k]|;
    forall x
      ensures x in s <==> x in vt[k]
    {
      assert x in multiset(s) <==> x in multiset(vt[k]);
    }
    forall b, id | 0 <= b < |vt| && id in vt[k := s][b]
      ensures TriedEntry(mi, h, b, id)
    {
      assert id in vt[b];
    }
  }
}
