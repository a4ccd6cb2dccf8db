/**
 * Saving and loading the address manager. The file keeps the entries and the
 * new buckets; mapAddr, vRandom, the tried buckets, the counts, the flags and
 * all ids are rebuilt.
 */
module AddrStorage {
  import opened Common
  import opened AddrTables
  import opened AddrManager

  /** The persisted fields of an entry. */
  datatype Persisted = Persisted(
    addr: Service, nServices: set<nat>, nTime: Time32, source: NetAddr, nLastSuccess: int, nAttempts: int)

  /** The file: new entries, tried entries, and each new bucket as indices into the new entries. */
  datatype Image = Image(nNew: int, nTried: int, newInfos: seq<Persisted>, triedInfos: seq<Persisted>, buckets: seq<seq<nat>>)

  function ToDisk(info: AddrInfo): Persisted {
    Persisted(info.addr, info.nServices, info.nTime, info.source, info.nLastSuccess, info.nAttempts)
  }

  function FromDisk(p: Persisted): AddrInfo {
    AddrInfo(p.addr, p.nServices, p.nTime, 0, p.source, p.nLastSuccess, p.nAttempts, 0, false, -1)
  }

  // ---------- what a file says ----------

  ghost predicate Lists(ids: seq<Id>, s: set<Id>) {
    Distinct(ids) && forall id :: id in ids <==> id in s
  }

  /** infos are the persisted entries of ids, in order. */
  ghost predicate Persists(mi: InfoMap, ids: seq<Id>, infos: seq<Persisted>) {
    && |infos| == |ids|
    && forall i :: 0 <= i < |ids| ==> ids[i] in mi && infos[i] == ToDisk(mi[ids[i]])
  }

  /** The indices name exactly the ids of the set, once each. */
  ghost predicate BucketNames(newIds: seq<Id>, bucket: seq<nat>, vNew: set<Id>) {
    && |bucket| == |vNew| && Distinct(bucket)
    && (forall n :: n in bucket ==> n < |newIds|)
    && forall n: nat :: n < |newIds| ==> (n in bucket <==> newIds[n] in vNew)
  }

  ghost predicate ImageOf(mi: InfoMap, vn: seq<set<Id>>, nNew: int, nTried: int, img: Image, newIds: seq<Id>, triedIds: seq<Id>) {
    && img.nNew == nNew == |newIds| && img.nTried == nTried == |triedIds|
    && Lists(newIds, NewIds(mi)) && Lists(triedIds, TriedIds(mi))
    && Persists(mi, newIds, img.newInfos) && Persists(mi, triedIds, img.triedInfos)
    && |img.buckets| == |vn| == NEW_BUCKET_COUNT
    && forall b :: 0 <= b < |vn| ==> BucketNames(newIds, img.buckets[b], vn[b])
  }

  // ---------- saving ----------

  lemma ListsSize(ids: seq<Id>, s: set<Id>)
    requires Lists(ids, s)
    ensures |ids| == |s|
  {
    forall id: Id
      ensures multiset(ids)[id] == multiset(s)[id]
    {
      DistinctMultiset(ids, id);
    }
    assert multiset(ids) == multiset(s);
    assert |multiset(ids)| == |ids| && |multiset(s)| == |s|;
  }

  /** One more entry listed and written. */
  lemma ListsMore(mi: InfoMap, ids: seq<Id>, s: set<Id>, infos: seq<Persisted>, x: Id)
    requires Lists(ids, s) && Persists(mi, ids, infos) && x !in s && x in mi
    ensures Lists(ids + [x], s + {x}) && Persists(mi, ids + [x], infos + [ToDisk(mi[x])])
  {
  }

  lemma NotListed(ids: seq<Id>, s: set<Id>, x: Id)
    requires Lists(ids, s) && x !in s
    ensures x !in ids
  {
  }

  lemma NamesMore(newIds: seq<Id>, bucket: seq<nat>, s: set<Id>, i: nat)
    requires BucketNames(newIds, bucket, s) && Distinct(newIds) && i < |newIds| && newIds[i] !in s
    ensures BucketNames(newIds, bucket + [i], s + {newIds[i]})
  {
    var b' := bucket + [i];
    forall n: nat | n < |newIds|
      ensures n in b' <==> newIds[n] in s + {newIds[i]}
    {
      assert n in b' <==> n in bucket || n == i;
    }
  }

  /** Writes the new entries and numbers them. Stops early when nNew have been written. */
  method SaveNew(mi: InfoMap, nNew: int) returns (infos: seq<Persisted>, mapUnkIds: map<Id, nat>, ghost newIds: seq<Id>)
    requires nNew == |NewIds(mi)| && forall id :: id in mi ==> (mi[id].nRefCount != 0 <==> !mi[id].fInTried)
    ensures Lists(newIds, NewIds(mi)) && |newIds| == nNew && Persists(mi, newIds, infos)
    ensures forall i :: 0 <= i < |newIds| ==> newIds[i] in mapUnkIds && mapUnkIds[newIds[i]] == i
  {
    hide Lists, Persists, Numbered;
    NothingListed(mi);
    infos, mapUnkIds, newIds := [], map[], [];
    assert Numbered([], map[]) by {
      NothingNumbered();
    }
    var nIds := 0;
    var rest := mi.Keys;
    ghost var seen: set<Id> := {};
    while rest != {}
      invariant rest <= mi.Keys && nIds == |infos| && nIds == |newIds|
      invariant seen == NewIds(mi) - rest && Lists(newIds, seen) && Persists(mi, newIds, infos)
      invariant Numbered(newIds, mapUnkIds)
    {
      if nIds == nNew {
        ListsSize(newIds, seen);
        AllSeen(seen, NewIds(mi));
        NumberedMeans(newIds, mapUnkIds);
        return;
      }
      var it :| it in rest;
      NotListed(newIds, seen, it);
      NumberedMore(newIds, mapUnkIds, it);
      mapUnkIds := mapUnkIds[it := nIds];
      if mi[it].nRefCount != 0 {
        ListsMore(mi, newIds, seen, infos, it);
        infos, nIds := infos + [ToDisk(mi[it])], nIds + 1;
        newIds, seen := newIds + [it], seen + {it};
      }
      rest := rest - {it};
    }
    ListsSize(newIds, seen);
    assert seen == NewIds(mi);
    NumberedMeans(newIds, mapUnkIds);
  }

  lemma NothingNumbered()
    ensures Numbered([], map[])
  {
  }

  ghost predicate Numbered(ids: seq<Id>, mapUnkIds: map<Id, nat>) {
    forall i :: 0 <= i < |ids| ==> ids[i] in mapUnkIds && mapUnkIds[ids[i]] == i
  }

  lemma NumberedMeans(ids: seq<Id>, mapUnkIds: map<Id, nat>)
    requires Numbered(ids, mapUnkIds)
    ensures forall i :: 0 <= i < |ids| ==> ids[i] in mapUnkIds && mapUnkIds[ids[i]] == i
  {
  }

  /** Giving an id that is not listed the next number leaves the others theirs. */
  lemma NumberedMore(ids: seq<Id>, mapUnkIds: map<Id, nat>, it: Id)
    requires Numbered(ids, mapUnkIds) && it !in ids
    ensures Numbered(ids, mapUnkIds[it := |ids|]) && Numbered(ids + [it], mapUnkIds[it := |ids|])
  {
  }

  lemma AllSeen(seen: set<Id>, s: set<Id>)
    requires seen <= s && |seen| == |s|
    ensures seen == s
  {
    assert s == seen + (s - seen);
    assert |s - seen| == 0;
  }

  method SaveTried(mi: InfoMap, nTried: int) returns (infos: seq<Persisted>, ghost triedIds: seq<Id>)
    requires nTried == |TriedIds(mi)|
    ensures |infos| == nTried
    ensures Lists(triedIds, TriedIds(mi)) && |triedIds| == nTried && Persists(mi, triedIds, infos)
  {
    hide Lists, Persists;
    NothingListed(mi);
    infos, triedIds := [], [];
    var nIds := 0;
    var rest := mi.Keys;
    ghost var seen: set<Id> := {};
    while rest != {}
      invariant rest <= mi.Keys && nIds == |infos| && nIds == |triedIds|
      invariant seen == TriedIds(mi) - rest && Lists(triedIds, seen) && Persists(mi, triedIds, infos)
    {
      if nIds == nTried {
        ListsSize(triedIds, seen);
        AllSeen(seen, TriedIds(mi));
        return;
      }
      var it :| it in rest;
      if mi[it].fInTried {
        ListsMore(mi, triedIds, seen, infos, it);
        infos, nIds := infos + [ToDisk(mi[it])], nIds + 1;
        triedIds, seen := triedIds + [it], seen + {it};
      }
      rest := rest - {it};
    }
    ListsSize(triedIds, seen);
    assert seen == TriedIds(mi);
  }

  lemma NoNames(newIds: seq<Id>)
    ensures BucketNames(newIds, [], {})
  {
  }

  lemma NothingListed(mi: InfoMap)
    ensures Lists([], {}) && Persists(mi, [], [])
  {
  }

  method SaveBucket(vNew: set<Id>, mapUnkIds: map<Id, nat>, ghost newIds: seq<Id>) returns (bucket: seq<nat>)
    requires Distinct(newIds) && forall id :: id in vNew ==> id in newIds
    requires forall i :: 0 <= i < |newIds| ==> newIds[i] in mapUnkIds && mapUnkIds[newIds[i]] == i
    ensures BucketNames(newIds, bucket, vNew)
  {
    hide BucketNames;
    bucket := [];
    NoNames(newIds);
    var rest := vNew;
    assert vNew - rest == {};
    while rest != {}
      invariant rest <= vNew && BucketNames(newIds, bucket, vNew - rest)
    {
      var it :| it in rest;
      ghost var i :| 0 <= i < |newIds| && newIds[i] == it;
      NamesMore(newIds, bucket, vNew - rest, i);
      bucket := bucket + [mapUnkIds[it]];
      assert vNew - (rest - {it}) == vNew - rest + {it};
      rest := rest - {it};
    }
    assert vNew - rest == vNew;
  }

  /** The file lists the entries in some order, new ones first, and refers to the new ones by their place in it. */
  method Save(am: AddrMan) returns (img: Image)
    requires am.Valid()
    ensures exists newIds, triedIds :: ImageOf(am.mapInfo, am.vvNew, am.nNew, am.nTried, img, newIds, triedIds)
  {
    ghost var newIds, triedIds;
    RefsTellNew(am.mapInfo, am.vvNew);
    var newInfos, mapUnkIds, triedInfos;
    newInfos, mapUnkIds, newIds := SaveNew(am.mapInfo, am.nNew);
    triedInfos, triedIds := SaveTried(am.mapInfo, am.nTried);
    var buckets := [];
    for b := 0 to |am.vvNew|
      invariant |buckets| == b && forall c :: 0 <= c < b ==> BucketNames(newIds, buckets[c], am.vvNew[c])
    {
      BucketEntriesListed(am.mapInfo, am.vvNew, b);
      var bucket := SaveBucket(am.vvNew[b], mapUnkIds, newIds);
      buckets := buckets + [bucket];
    }
    img := Image(am.nNew, am.nTried, newInfos, triedInfos, buckets);
    assert ImageOf(am.mapInfo, am.vvNew, am.nNew, am.nTried, img, newIds, triedIds);
  }

  lemma RefsTellNew(mi: InfoMap, vn: seq<set<Id>>)
    requires NewOk(mi, vn, -1)
    ensures forall id :: id in mi ==> (mi[id].nRefCount != 0 <==> !mi[id].fInTried)
  {
    forall id | id in mi
      ensures mi[id].nRefCount != 0 <==> !mi[id].fInTried
    {
      assert CountOk(mi[id]);
    }
  }

  lemma BucketEntriesListed(mi: InfoMap, vn: seq<set<Id>>, b: nat)
    requires NewOk(mi, vn, -1) && b < |vn|
    ensures forall id :: id in vn[b] ==> id in NewIds(mi)
  {
    forall id | id in vn[b]
      ensures id in NewIds(mi)
    {
      InBucketCounted(mi, vn, -1, b, id);
    }
  }

  // ---------- loading ----------

  /** mi' has ids 0 to n - 1, with the persisted fields infos[..n]. */
  ghost predicate Front(mi': InfoMap, infos: seq<Persisted>, n: nat) {
    && n <= |infos|
    && (forall id: Id :: id in mi' <==> id < n)
    && forall id :: id in mi' ==> ToDisk(mi'[id]) == infos[id] && mi'[id].nLastTry == 0
  }

  /** Entries before m are new, the others tried. */
  ghost predicate SplitAt(mi': InfoMap, m: nat) {
    forall id :: id in mi' ==> (mi'[id].fInTried <==> id >= m)
  }

  ghost predicate NoReferences(mi': InfoMap) {
    forall id :: id in mi' ==> mi'[id].nRefCount == 0
  }

  ghost predicate DistinctIps(infos: seq<Persisted>) {
    forall i, j :: 0 <= i < j < |infos| ==> infos[i].addr.ip != infos[j].addr.ip
  }

  lemma IpsDiffer(mi: InfoMap, ma: map<NetAddr, Id>, ids: seq<Id>, infos: seq<Persisted>)
    requires AddrOk(mi, ma) && Distinct(ids) && Persists(mi, ids, infos)
    ensures DistinctIps(infos)
  {
  }

  lemma AppendEntry(mi': InfoMap, ma': map<NetAddr, Id>, vr': seq<Id>, infos: seq<Persisted>, m: nat, n: nat, info: AddrInfo)
    requires DistinctIps(infos) && n < |infos| && Front(mi', infos, n) && SplitAt(mi', m) && NoReferences(mi')
    requires AddrOk(mi', ma') && RandomOk(mi', vr') && IdsOk(mi', n) && |vr'| == n
    requires info == FromDisk(infos[n]).(nRandomPos := n, fInTried := n >= m)
    ensures info.addr.ip !in ma' && n !in mi'
    ensures AddrOk(mi'[n := info], ma'[info.addr.ip := n]) && RandomOk(mi'[n := info], vr' + [n]) && IdsOk(mi'[n := info], n + 1)
    ensures Front(mi'[n := info], infos, n + 1) && SplitAt(mi'[n := info], m) && NoReferences(mi'[n := info])
  {
    AddEntry(mi', ma', vr', n, info);
  }

  method LoadNew(infos: seq<Persisted>, m: nat) returns (mi': InfoMap, ma': map<NetAddr, Id>, vr': seq<Id>)
    requires DistinctIps(infos) && m <= |infos|
    ensures Front(mi', infos, m) && SplitAt(mi', m) && NoReferences(mi') && |vr'| == m
    ensures AddrOk(mi', ma') && RandomOk(mi', vr') && IdsOk(mi', m) && CountsOk(mi', 0, m)
  {
    hide Front, SplitAt, NoReferences, DistinctIps, AddrOk, RandomOk, IdsOk;
    mi', ma', vr' := map[], map[], [];
    EmptyTables(infos, m);
    for n := 0 to m
      invariant Front(mi', infos, n) && SplitAt(mi', m) && NoReferences(mi') && |vr'| == n
      invariant AddrOk(mi', ma') && RandomOk(mi', vr') && IdsOk(mi', n) && CountsOk(mi', 0, n)
    {
      var info := FromDisk(infos[n]).(nRandomPos := |vr'|);
      AppendEntry(mi', ma', vr', infos, m, n, info);
      CountsAdd(mi', n, info);
      mi', ma', vr' := mi'[n := info], ma'[info.addr.ip := n], vr' + [n];
    }
  }

  lemma EmptyTables(infos: seq<Persisted>, m: nat)
    ensures Front(map[], infos, 0) && SplitAt(map[], m) && NoReferences(map[])
    ensures AddrOk(map[], map[]) && RandomOk(map[], []) && IdsOk(map[], 0) && CountsOk(map[], 0, 0)
  {
    assert TriedIds(map[]) == {} && NewIds(map[]) == {};
  }

  /** The next tried entry still has room: its bucket held it before, with the ones already loaded there. */
  lemma TriedRoom(mi: InfoMap, vt: seq<seq<Id>>, mi': InfoMap, vt': seq<seq<Id>>, h: TriedHash,
      ids: seq<Id>, infos: seq<Persisted>, m: nat, n: nat)
    requires TriedOk(mi, vt, h) && TriedOk(mi', vt', h) && Front(mi', infos, n) && SplitAt(mi', m)
    requires m <= n < |ids| && Distinct(ids) && Persists(mi, ids, infos)
    requires forall i :: m <= i < |ids| ==> mi[ids[i]].fInTried
    ensures |vt'[h(infos[n].addr)]| < TRIED_BUCKET_SIZE
  {
    var k := h(infos[n].addr);
    forall j | j in vt'[k]
      ensures j < n && ids[j] in vt[k]
    {
      assert TriedEntry(mi', h, k, j);
    }
    var t := seq(|vt'[k]|, (i: nat) requires i < |vt'[k]| => assert vt'[k][i] in vt'[k]; ids[vt'[k][i]]);
    assert Distinct(t + [ids[n]]) by {
      assert forall i :: 0 <= i < |t| ==> vt'[k][i] in vt'[k] && t[i] == ids[vt'[k][i]];
    }
    DistinctInside(t + [ids[n]], vt[k]);
  }

  lemma DistinctInside(s: seq<Id>, u: seq<Id>)
    requires Distinct(s) && Distinct(u) && forall x :: x in s ==> x in u
    ensures |s| <= |u|
  {
    forall x: Id
      ensures multiset(s)[x] <= multiset(u)[x]
    {
      DistinctMultiset(s, x);
      DistinctMultiset(u, x);
    }
    assert multiset(s) <= multiset(u);
    assert multiset(u) == multiset(s) + (multiset(u) - multiset(s));
    assert |multiset(s)| == |s| && |multiset(u)| == |u|;
  }

  method LoadTried(mi0: InfoMap, ma0: map<NetAddr, Id>, vr0: seq<Id>, infos: seq<Persisted>, m: nat, nTried: nat, h: TriedHash,
      ghost mi: InfoMap, ghost vt: seq<seq<Id>>, ghost ids: seq<Id>)
    returns (mi': InfoMap, ma': map<NetAddr, Id>, vr': seq<Id>, vt': seq<seq<Id>>, nLost: int)
    requires Front(mi0, infos, m) && SplitAt(mi0, m) && NoReferences(mi0) && |vr0| == m && DistinctIps(infos)
    requires AddrOk(mi0, ma0) && RandomOk(mi0, vr0) && IdsOk(mi0, m) && CountsOk(mi0, 0, m)
    requires m + nTried == |infos| == |ids| && TriedOk(mi, vt, h) && Distinct(ids) && Persists(mi, ids, infos)
    requires forall i :: m <= i < |ids| ==> mi[ids[i]].fInTried
    ensures nLost == 0
    ensures Front(mi', infos, |infos|) && SplitAt(mi', m) && NoReferences(mi')
    ensures AddrOk(mi', ma') && RandomOk(mi', vr') && IdsOk(mi', |infos|) && CountsOk(mi', nTried, m)
    ensures TriedOk(mi', vt', h)
  {
    hide Front, SplitAt, NoReferences, DistinctIps, AddrOk, RandomOk, IdsOk, TriedOk, Persists;
    mi', ma', vr' := mi0, ma0, vr0;
    vt' := seq(TRIED_BUCKET_COUNT, _ => []);
    nLost := 0;
    var nIdCount := m;
    NoTried(mi0, m, vt', h, infos);
    for n := 0 to nTried
      invariant nIdCount == m + n && nLost == 0 && |vr'| == nIdCount && |vt'| == TRIED_BUCKET_COUNT
      invariant Front(mi', infos, nIdCount) && SplitAt(mi', m) && NoReferences(mi')
      invariant AddrOk(mi', ma') && RandomOk(mi', vr') && IdsOk(mi', nIdCount) && CountsOk(mi', n, m)
      invariant TriedOk(mi', vt', h)
    {
      var info := FromDisk(infos[m + n]);
      var k := h(info.addr);
      TriedRoom(mi, vt, mi', vt', h, ids, infos, m, m + n);
      if |vt'[k]| < TRIED_BUCKET_SIZE {
        info := info.(nRandomPos := |vr'|, fInTried := true);
        AppendEntry(mi', ma', vr', infos, m, nIdCount, info);
        CountsAdd(mi', nIdCount, info);
        AppendTried(mi', vt', h, nIdCount, info);
        vr', mi', ma' := vr' + [nIdCount], mi'[nIdCount := info], ma'[info.addr.ip := nIdCount];
        vt' := vt'[k := vt'[k] + [nIdCount]];
        nIdCount := nIdCount + 1;
      } else {
        nLost := nLost + 1;
      }
    }
  }

  lemma NoTried(mi': InfoMap, m: nat, vt': seq<seq<Id>>, h: TriedHash, infos: seq<Persisted>)
    requires Front(mi', infos, m) && SplitAt(mi', m)
    requires |vt'| == TRIED_BUCKET_COUNT && forall b :: 0 <= b < |vt'| ==> vt'[b] == []
    ensures TriedOk(mi', vt', h)
  {
  }

  // ---------- the new buckets ----------

  /** The buckets read so far: all of the first b, and the first i indices of bucket b. */
  function ReadSoFar(buckets: seq<seq<nat>>, b: nat, i: nat): (r: seq<set<Id>>)
    requires b <= |buckets| && (b < |buckets| ==> i <= |buckets[b]|)
    ensures |r| == |buckets|
  {
    seq(|buckets|, (c: nat) requires c < |buckets| =>
      if c < b then set n | n in buckets[c]
      else if c == b then set n | n in buckets[b][..i] else {})
  }

  /** What the file says about the buckets, entry by entry. */
  ghost predicate NamesAll(buckets: seq<seq<nat>>, newIds: seq<Id>, vn: seq<set<Id>>) {
    && |buckets| == |vn| == NEW_BUCKET_COUNT
    && forall b :: 0 <= b < |vn| ==> BucketNames(newIds, buckets[b], vn[b])
  }

  /** mi' is mi0 with the references counted that vn' shows. */
  ghost predicate Counted(mi0: InfoMap, mi': InfoMap, vn': seq<set<Id>>) {
    && mi'.Keys == mi0.Keys
    && forall id :: id in mi0 ==> mi'[id] == mi0[id].(nRefCount := |BucketsOf(vn', id)|)
  }

  lemma CountOneMore(mi0: InfoMap, mi': InfoMap, vn': seq<set<Id>>, b: nat, id: Id)
    requires Counted(mi0, mi', vn') && b < |vn'| && id !in vn'[b] && id in mi0
    ensures Counted(mi0, mi'[id := mi'[id].(nRefCount := mi'[id].nRefCount + 1)], vn'[b := vn'[b] + {id}])
  {
    forall x: Id {
      BucketAdded(vn', b, id, x);
    }
  }

  lemma ReadOneMore(buckets: seq<seq<nat>>, b: nat, i: nat)
    requires b < |buckets| && i < |buckets[b]|
    ensures var r := ReadSoFar(buckets, b, i); ReadSoFar(buckets, b, i + 1) == r[b := r[b] + {buckets[b][i]}]
  {
    var r := ReadSoFar(buckets, b, i);
    assert buckets[b][..i + 1] == buckets[b][..i] + [buckets[b][i]];
    assert ReadSoFar(buckets, b, i + 1)[b] == r[b] + {buckets[b][i]};
  }

  lemma ReadBucket(buckets: seq<seq<nat>>, b: nat)
    requires b < |buckets|
    ensures ReadSoFar(buckets, b, |buckets[b]|) == ReadSoFar(buckets, b + 1, 0)
  {
    assert buckets[b][..|buckets[b]|] == buckets[b];
    var l, r := ReadSoFar(buckets, b, |buckets[b]|), ReadSoFar(buckets, b + 1, 0);
    forall c | 0 <= c < |buckets|
      ensures l[c] == r[c]
    {
    }
  }

  /** An index about to be read has not reached its old count yet, so it is below the limit. */
  lemma BelowLimit(mi: InfoMap, vn: seq<set<Id>>, newIds: seq<Id>, buckets: seq<seq<nat>>, b: nat, i: nat)
    requires NewOk(mi, vn, -1) && NamesAll(buckets, newIds, vn) && b < |buckets| && i < |buckets[b]|
    ensures var n := buckets[b][i]; var r := ReadSoFar(buckets, b, i);
      n < |newIds| && n !in r[b] && |BucketsOf(r, n)| < NEW_BUCKETS_PER_ADDRESS
  {
    var n := buckets[b][i];
    var r := ReadSoFar(buckets, b, i);
    assert BucketNames(newIds, buckets[b], vn[b]) && n in buckets[b];
    forall c | c in BucketsOf(r, n) + {b}
      ensures c in BucketsOf(vn, newIds[n])
    {
      assert BucketNames(newIds, buckets[c], vn[c]);
    }
    InBucketCounted(mi, vn, -1, b, newIds[n]);
    assert CountOk(mi[newIds[n]]);
    SubsetSize(BucketsOf(r, n) + {b}, BucketsOf(vn, newIds[n]));
    assert b !in BucketsOf(r, n);
  }

  method LoadBuckets(mi0: InfoMap, buckets: seq<seq<nat>>, m: nat,
      ghost mi: InfoMap, ghost vn: seq<set<Id>>, ghost newIds: seq<Id>)
    returns (mi': InfoMap, vn': seq<set<Id>>)
    requires NewOk(mi, vn, -1) && NamesAll(buckets, newIds, vn) && m == |newIds|
    requires NoReferences(mi0) && forall id: Id :: id < m ==> id in mi0
    ensures vn' == ReadSoFar(buckets, |buckets|, 0) && Counted(mi0, mi', vn')
  {
    hide NewOk, NamesAll, NoReferences, ReadSoFar, BucketsOf;
    mi', vn' := mi0, seq(NEW_BUCKET_COUNT, _ => {});
    NothingRead(mi0, buckets, newIds, vn, vn');
    for b := 0 to |buckets|
      invariant vn' == ReadSoFar(buckets, b, 0) && Counted(mi0, mi', vn')
    {
      var nSize := |buckets[b]|;
      for i := 0 to nSize
        invariant vn' == ReadSoFar(buckets, b, i) && Counted(mi0, mi', vn')
      {
        var nIndex := buckets[b][i];
        BelowLimit(mi, vn, newIds, buckets, b, i);
        assert mi'[nIndex].nRefCount == |BucketsOf(vn', nIndex)|;
        if mi'[nIndex].nRefCount < NEW_BUCKETS_PER_ADDRESS {
          CountOneMore(mi0, mi', vn', b, nIndex);
          ReadOneMore(buckets, b, i);
          mi' := mi'[nIndex := mi'[nIndex].(nRefCount := mi'[nIndex].nRefCount + 1)];
          vn' := vn'[b := vn'[b] + {nIndex}];
        }
      }
      ReadBucket(buckets, b);
    }
  }

  lemma NothingRead(mi0: InfoMap, buckets: seq<seq<nat>>, newIds: seq<Id>, vn: seq<set<Id>>, vn': seq<set<Id>>)
    requires NoReferences(mi0) && NamesAll(buckets, newIds, vn) && vn' == seq(NEW_BUCKET_COUNT, _ => {})
    ensures vn' == ReadSoFar(buckets, 0, 0) && Counted(mi0, mi0, vn')
  {
    forall id: Id
      ensures BucketsOf(vn', id) == {}
    {
    }
    var r := ReadSoFar(buckets, 0, 0);
    forall c | 0 <= c < |buckets|
      ensures r[c] == vn'[c]
    {
    }
  }

  // ---------- saving, then loading ----------

  /** The loaded entry n is the saved entry ids[n], in the same buckets. */
  ghost predicate SameContents(mi: InfoMap, vt: seq<seq<Id>>, vn: seq<set<Id>>,
      mi': InfoMap, vt': seq<seq<Id>>, vn': seq<set<Id>>, ids: seq<Id>)
  {
    && Lists(ids, mi.Keys) && (forall n: Id :: n in mi' <==> n < |ids|)
    && (forall n :: 0 <= n < |ids| ==>
          && ToDisk(mi'[n]) == ToDisk(mi[ids[n]])
          && mi'[n].fInTried == mi[ids[n]].fInTried && mi'[n].nRefCount == mi[ids[n]].nRefCount)
    && |vn'| == |vn| && |vt'| == |vt|
    && (forall b, n :: 0 <= b < |vn| && 0 <= n < |ids| ==> (n in vn'[b] <==> ids[n] in vn[b]))
    && (forall k, n :: 0 <= k < |vt| && 0 <= n < |ids| ==> (n in vt'[k] <==> ids[n] in vt[k]))
  }

  lemma AllListed(mi: InfoMap, newIds: seq<Id>, triedIds: seq<Id>, newInfos: seq<Persisted>, triedInfos: seq<Persisted>)
    requires Lists(newIds, NewIds(mi)) && Lists(triedIds, TriedIds(mi))
    requires Persists(mi, newIds, newInfos) && Persists(mi, triedIds, triedInfos)
    ensures var ids := newIds + triedIds;
      && Lists(ids, mi.Keys) && Persists(mi, ids, newInfos + triedInfos)
      && forall i :: 0 <= i < |ids| ==> (mi[ids[i]].fInTried <==> i >= |newIds|)
  {
    hide Persists;
    ListedFlags(mi, newIds, triedIds);
    PersistsJoin(mi, newIds, triedIds, newInfos, triedInfos);
    assert NewIds(mi) + TriedIds(mi) == mi.Keys;
    ListsJoin(newIds, NewIds(mi), triedIds, TriedIds(mi));
  }

  lemma ListedFlags(mi: InfoMap, newIds: seq<Id>, triedIds: seq<Id>)
    requires Lists(newIds, NewIds(mi)) && Lists(triedIds, TriedIds(mi))
    ensures var ids := newIds + triedIds;
      forall i :: 0 <= i < |ids| ==> ids[i] in mi && (mi[ids[i]].fInTried <==> i >= |newIds|)
  {
    var ids := newIds + triedIds;
    forall i | 0 <= i < |ids|
      ensures ids[i] in mi && (mi[ids[i]].fInTried <==> i >= |newIds|)
    {
      if i < |newIds| {
        assert ids[i] in newIds;
      } else {
        assert ids[i] in triedIds;
      }
    }
  }

  lemma PersistsJoin(mi: InfoMap, a: seq<Id>, b: seq<Id>, aInfos: seq<Persisted>, bInfos: seq<Persisted>)
    requires Persists(mi, a, aInfos) && Persists(mi, b, bInfos)
    ensures Persists(mi, a + b, aInfos + bInfos)
  {
  }

  lemma ListsJoin(a: seq<Id>, s: set<Id>, b: seq<Id>, t: set<Id>)
    requires Lists(a, s) && Lists(b, t) && s !! t
    ensures Lists(a + b, s + t)
  {
    forall id: Id
      ensures id in a + b <==> id in s + t
    {
      assert id in a + b <==> id in a || id in b;
    }
    forall i, j | 0 <= i < |a| && 0 <= j < |b|
      ensures a[i] != b[j]
    {
      assert a[i] in a && b[j] in b;
    }
  }

  /** The rebuilt new buckets, index by index. */
  lemma ReadAll(buckets: seq<seq<nat>>, newIds: seq<Id>, vn: seq<set<Id>>, b: nat)
    requires NamesAll(buckets, newIds, vn) && b < |vn|
    ensures var vn' := ReadSoFar(buckets, |buckets|, 0);
      && |vn'[b]| == |vn[b]|
      && (forall n :: n in vn'[b] ==> n < |newIds|)
      && forall n: nat :: n < |newIds| ==> (n in vn'[b] <==> newIds[n] in vn[b])
  {
    assert BucketNames(newIds, buckets[b], vn[b]);
    ListsSize(buckets[b], ReadSoFar(buckets, |buckets|, 0)[b]);
  }

  lemma SameBuckets(buckets: seq<seq<nat>>, newIds: seq<Id>, vn: seq<set<Id>>, n: nat)
    requires NamesAll(buckets, newIds, vn)
    ensures BucketsOf(ReadSoFar(buckets, |buckets|, 0), n) == if n < |newIds| then BucketsOf(vn, newIds[n]) else {}
  {
    forall b: nat | b < |vn| {
      ReadAll(buckets, newIds, vn, b);
    }
  }

  lemma NewRebuilt(mi: InfoMap, vn: seq<set<Id>>, mi1: InfoMap, mi': InfoMap, buckets: seq<seq<nat>>, ids: seq<Id>, newIds: seq<Id>)
    requires NewOk(mi, vn, -1) && NamesAll(buckets, newIds, vn) && newIds <= ids
    requires (forall i :: 0 <= i < |ids| ==> ids[i] in mi && (mi[ids[i]].fInTried <==> i >= |newIds|))
    requires (forall n: Id :: n in mi1 <==> n < |ids|) && SplitAt(mi1, |newIds|)
    requires Counted(mi1, mi', ReadSoFar(buckets, |buckets|, 0))
    ensures NewOk(mi', ReadSoFar(buckets, |buckets|, 0), -1)
    ensures forall n :: 0 <= n < |ids| ==> mi'[n].nRefCount == mi[ids[n]].nRefCount
  {
    hide ReadSoFar, NamesAll;
    NamesAllSize(buckets, newIds, vn);
    var vn' := ReadSoFar(buckets, |buckets|, 0);
    forall b: nat | b < |vn|
      ensures |vn'[b]| == |vn[b]| && forall n :: n in vn'[b] ==> n < |newIds|
    {
      ReadAll(buckets, newIds, vn, b);
    }
    forall n: nat | n < |ids|
      ensures mi'[n].nRefCount == mi[ids[n]].nRefCount && CountOk(mi'[n])
    {
      SameBuckets(buckets, newIds, vn, n);
      assert CountOk(mi[ids[n]]);
    }
  }

  lemma NamesAllSize(buckets: seq<seq<nat>>, newIds: seq<Id>, vn: seq<set<Id>>)
    requires NamesAll(buckets, newIds, vn)
    ensures |buckets| == |vn| == NEW_BUCKET_COUNT
  {
  }

  lemma TriedRebuilt(mi: InfoMap, vt: seq<seq<Id>>, mi': InfoMap, vt': seq<seq<Id>>, h: TriedHash, ids: seq<Id>, k: nat, n: nat)
    requires TriedOk(mi, vt, h) && TriedOk(mi', vt', h) && k < |vt| && n < |ids|
    requires n in mi' && ids[n] in mi && mi'[n].addr == mi[ids[n]].addr && mi'[n].fInTried == mi[ids[n]].fInTried
    ensures n in vt'[k] <==> ids[n] in vt[k]
  {
    assert n in vt'[k] ==> TriedEntry(mi', h, k, n);
    assert ids[n] in vt[k] ==> TriedEntry(mi, h, k, ids[n]);
  }

  lemma TimesRebuilt(mi: InfoMap, mi': InfoMap, ids: seq<Id>)
    requires TimesOk(mi) && forall n: Id :: n in mi' <==> n < |ids|
    requires forall n :: 0 <= n < |ids| ==> ids[n] in mi && SamePersisted(mi[ids[n]], mi'[n])
    requires forall n: Id :: n in mi' ==> mi'[n].nLastTry == 0
    ensures TimesOk(mi')
  {
    forall n | n in mi'
      ensures mi'[n].nLastSuccess == mi[ids[n]].nLastSuccess && mi'[n].fInTried == mi[ids[n]].fInTried
    {
      assert SamePersisted(mi[ids[n]], mi'[n]);
    }
  }

  ghost predicate SamePersisted(info: AddrInfo, info': AddrInfo) {
    ToDisk(info') == ToDisk(info) && info'.fInTried == info.fInTried
  }

  lemma PersistedRebuilt(mi: InfoMap, mi1: InfoMap, mi': InfoMap, vn': seq<set<Id>>,
      ids: seq<Id>, infos: seq<Persisted>, m: nat)
    requires Persists(mi, ids, infos) && Front(mi1, infos, |infos|) && SplitAt(mi1, m) && Counted(mi1, mi', vn')
    requires forall i :: 0 <= i < |ids| ==> ids[i] in mi && (mi[ids[i]].fInTried <==> i >= m)
    ensures |infos| == |ids| && forall n: Id :: n in mi' <==> n < |ids|
    ensures forall n :: 0 <= n < |ids| ==> ids[n] in mi && SamePersisted(mi[ids[n]], mi'[n])
    ensures forall n: Id :: n in mi' ==> mi'[n].nLastTry == 0
  {
  }

  lemma TablesRebuilt(mi: InfoMap, vt: seq<seq<Id>>, vn: seq<set<Id>>, mi': InfoMap, vt': seq<seq<Id>>,
      h: TriedHash, buckets: seq<seq<nat>>, ids: seq<Id>, newIds: seq<Id>)
    requires TriedOk(mi, vt, h) && TriedOk(mi', vt', h) && NewOk(mi, vn, -1) && NamesAll(buckets, newIds, vn) && newIds <= ids
    requires forall n: Id :: n in mi' <==> n < |ids|
    requires forall n :: 0 <= n < |ids| ==> ids[n] in mi && SamePersisted(mi[ids[n]], mi'[n]) && (mi[ids[n]].fInTried <==> n >= |newIds|)
    ensures var vn' := ReadSoFar(buckets, |buckets|, 0);
      forall b, n :: 0 <= b < |vn| && 0 <= n < |ids| ==> (n in vn'[b] <==> ids[n] in vn[b])
    ensures forall k, n :: 0 <= k < |vt| && 0 <= n < |ids| ==> (n in vt'[k] <==> ids[n] in vt[k])
  {
    hide ReadSoFar;
    var vn' := ReadSoFar(buckets, |buckets|, 0);
    forall k, n | 0 <= k < |vt| && 0 <= n < |ids|
      ensures n in vt'[k] <==> ids[n] in vt[k]
    {
      assert SamePersisted(mi[ids[n]], mi'[n]) && ToDisk(mi'[n]).addr == ToDisk(mi[ids[n]]).addr;
      TriedRebuilt(mi, vt, mi', vt', h, ids, k, n);
    }
    forall b, n | 0 <= b < |vn| && 0 <= n < |ids|
      ensures n in vn'[b] <==> ids[n] in vn[b]
    {
      ReadAll(buckets, newIds, vn, b);
      if n >= |newIds| {
        EvictedIsNotNew(mi, vn, ids[n]);
      }
    }
  }

  /**
   * Refills the manager from a file written from the tables mi, ma, vt and vn
   * under the same key. Nothing is lost, and the rebuilt tables are consistent.
   */
  method Load(am: AddrMan, img: Image,
      ghost mi: InfoMap, ghost ma: map<NetAddr, Id>, ghost vr: seq<Id>, ghost vt: seq<seq<Id>>, ghost vn: seq<set<Id>>,
      ghost nIdCount: nat, ghost newIds: seq<Id>, ghost triedIds: seq<Id>)
    returns (nLost: int)
    requires Consistent(mi, ma, vr, vt, vn, img.nTried, img.nNew, nIdCount, am.triedBucket, -1)
    requires ImageOf(mi, vn, img.nNew, img.nTried, img, newIds, triedIds)
    modifies am
    ensures nLost == 0 && am.Valid() && am.nNew == img.nNew && am.nTried == img.nTried
    ensures SameContents(mi, vt, vn, am.mapInfo, am.vvTried, am.vvNew, newIds + triedIds)
  {
    hide AddrOk, RandomOk, TriedOk, NewOk, TimesOk, CountsOk, IdsOk, Lists, Persists, BucketNames,
         Front, SplitAt, NoReferences, DistinctIps, ReadSoFar, Counted, SameContents;
    ghost var ids := newIds + triedIds;
    var infos := img.newInfos + img.triedInfos;
    AllListed(mi, newIds, triedIds, img.newInfos, img.triedInfos);
    ListsAreDistinct(ids, mi.Keys);
    PersistsSize(mi, newIds, img.newInfos);
    PersistsSize(mi, ids, infos);
    IpsDiffer(mi, ma, ids, infos);
    var mi', ma', vr' := LoadNew(infos, img.nNew);
    var vt', vn';
    mi', ma', vr', vt', nLost := LoadTried(mi', ma', vr', infos, img.nNew, img.nTried, am.triedBucket, mi, vt, ids);
    ghost var mi1 := mi';
    FrontCovers(mi1, infos, img.nNew);
    mi', vn' := LoadBuckets(mi', img.buckets, img.nNew, mi, vn, newIds);
    Rebuilt(mi, ma, vr, vt, vn, img.nTried, img.nNew, nIdCount, am.triedBucket,
            mi1, mi', ma', vr', vt', img.buckets, infos, newIds, triedIds);
    am.mapInfo, am.mapAddr, am.vRandom, am.vvTried, am.vvNew := mi', ma', vr', vt', vn';
    am.nNew, am.nTried, am.nIdCount := img.nNew, img.nTried - nLost, |infos|;
  }

  /** Another manager with the same key, refilled from the file that Save writes, holds what the first one holds. */
  method SaveThenLoad(am: AddrMan, other: AddrMan) returns (nLost: int)
    requires am.Valid() && other != am && other.triedBucket == am.triedBucket
    modifies other
    ensures nLost == 0 && other.Valid() && other.nNew == am.nNew && other.nTried == am.nTried
    ensures exists ids :: SameContents(am.mapInfo, am.vvTried, am.vvNew, other.mapInfo, other.vvTried, other.vvNew, ids)
  {
    hide SameContents, Consistent;
    var img := Save(am);
    ghost var newIds, triedIds :| ImageOf(am.mapInfo, am.vvNew, am.nNew, am.nTried, img, newIds, triedIds);
    nLost := Load(other, img, am.mapInfo, am.mapAddr, am.vRandom, am.vvTried, am.vvNew, am.nIdCount, newIds, triedIds);
  }

  lemma ListsAreDistinct(ids: seq<Id>, s: set<Id>)
    requires Lists(ids, s)
    ensures Distinct(ids)
  {
  }

  lemma PersistsSize(mi: InfoMap, ids: seq<Id>, infos: seq<Persisted>)
    requires Persists(mi, ids, infos)
    ensures |infos| == |ids|
  {
  }

  lemma FrontCovers(mi': InfoMap, infos: seq<Persisted>, m: nat)
    requires Front(mi', infos, |infos|) && m <= |infos|
    ensures forall id: Id :: id < m ==> id in mi'
    ensures m == |infos| ==> forall id: Id :: id in mi' <==> id < |infos|
  {
  }

  lemma Rebuilt(mi: InfoMap, ma: map<NetAddr, Id>, vr: seq<Id>, vt: seq<seq<Id>>, vn: seq<set<Id>>,
      nTried: int, nNew: int, nIdCount: nat, h: TriedHash,
      mi1: InfoMap, mi': InfoMap, ma': map<NetAddr, Id>, vr': seq<Id>, vt': seq<seq<Id>>,
      buckets: seq<seq<nat>>, infos: seq<Persisted>, newIds: seq<Id>, triedIds: seq<Id>)
    requires Consistent(mi, ma, vr, vt, vn, nTried, nNew, nIdCount, h, -1)
    requires NamesAll(buckets, newIds, vn) && Lists(newIds + triedIds, mi.Keys) && Persists(mi, newIds + triedIds, infos)
    requires forall i :: 0 <= i < |newIds + triedIds| ==> (mi[(newIds + triedIds)[i]].fInTried <==> i >= |newIds|)
    requires |newIds| == nNew && |triedIds| == nTried
    requires Front(mi1, infos, |infos|) && SplitAt(mi1, |newIds|)
    requires AddrOk(mi1, ma') && RandomOk(mi1, vr') && IdsOk(mi1, |infos|) && CountsOk(mi1, nTried, nNew)
    requires TriedOk(mi1, vt', h) && Counted(mi1, mi', ReadSoFar(buckets, |buckets|, 0))
    ensures Consistent(mi', ma', vr', vt', ReadSoFar(buckets, |buckets|, 0), nTried, nNew, |infos|, h, -1)
    ensures SameContents(mi, vt, vn, mi', vt', ReadSoFar(buckets, |buckets|, 0), newIds + triedIds)
  {
    hide AddrOk, RandomOk, TriedOk, NewOk, TimesOk, CountsOk, IdsOk, Persists, NamesAll, Front, SplitAt, ReadSoFar,
         SamePersisted, Counted, Lists, BucketsOf, ToDisk;
    var ids, vn' := newIds + triedIds, ReadSoFar(buckets, |buckets|, 0);
    ListedIn(mi, ids);
    PersistedRebuilt(mi, mi1, mi', vn', ids, infos, |newIds|);
    FrontCovers(mi1, infos, |infos|);
    NewRebuilt(mi, vn, mi1, mi', buckets, ids, newIds);
    CountedFrame(mi1, mi', vn', ma', vr', |infos|, vt', h, nTried, nNew);
    TimesRebuilt(mi, mi', ids);
    TablesRebuilt(mi, vt, vn, mi', vt', h, buckets, ids, newIds);
    NamesAllSize(buckets, newIds, vn);
    TableSizes(mi, vt, vn, h);
    TableSizes(mi', vt', vn', h);
    AllSamePersisted(mi, mi', ids);
  }

  lemma ListedIn(mi: InfoMap, ids: seq<Id>)
    requires Lists(ids, mi.Keys)
    ensures forall i :: 0 <= i < |ids| ==> ids[i] in mi
  {
  }

  /** Counting references leaves the other tables as they were. */
  lemma CountedFrame(mi1: InfoMap, mi': InfoMap, vn': seq<set<Id>>, ma': map<NetAddr, Id>, vr': seq<Id>, n: nat,
      vt': seq<seq<Id>>, h: TriedHash, nTried: int, nNew: int)
    requires Counted(mi1, mi', vn') && AddrOk(mi1, ma') && RandomOk(mi1, vr') && IdsOk(mi1, n)
    requires TriedOk(mi1, vt', h) && CountsOk(mi1, nTried, nNew)
    ensures AddrOk(mi', ma') && RandomOk(mi', vr') && IdsOk(mi', n) && TriedOk(mi', vt', h) && CountsOk(mi', nTried, nNew)
  {
    FlagsFrame(mi1, mi', ma', vr', n);
    TriedFrame(mi1, mi', vt', h);
    SameFlagsSameIds(mi1, mi');
  }

  lemma AllSamePersisted(mi: InfoMap, mi': InfoMap, ids: seq<Id>)
    requires forall n: Id :: n in mi' <==> n < |ids|
    requires forall n :: 0 <= n < |ids| ==> ids[n] in mi && SamePersisted(mi[ids[n]], mi'[n])
    ensures forall n :: 0 <= n < |ids| ==> ToDisk(mi'[n]) == ToDisk(mi[ids[n]]) && mi'[n].fInTried == mi[ids[n]].fInTried
  {
  }
}
