/** The tables of the address manager as values, and what keeps them consistent. */
module AddrTables {

  const TRIED_BUCKET_COUNT: nat := 64
  const TRIED_BUCKET_SIZE: nat := 64
  const NEW_BUCKET_COUNT: nat := 256
  const NEW_BUCKET_SIZE: nat := 64
  const NEW_BUCKETS_PER_ADDRESS: nat := 4

  type TriedIndex = n: nat | n < 64
  type NewIndex = n: nat | n < 256
  /** nTime is a 32-bit unsigned field. */
  type Time32 = n: nat | n < 0x1_0000_0000

  type NetAddr = nat
  datatype Service = Service(ip: NetAddr, port: nat)

  /** nServices is the set of service bits. */
  datatype AddrInfo = AddrInfo(
    addr: Service, nServices: set<nat>, nTime: Time32, nLastTry: int,
    source: NetAddr, nLastSuccess: int, nAttempts: int,
    nRefCount: int, fInTried: bool, nRandomPos: int)

  type Id = nat
  type InfoMap = map<Id, AddrInfo>
  type TriedHash = Service -> TriedIndex
  type NewHash = (Service, NetAddr) -> NewIndex

  // ---------- the consistency conditions, table by table ----------

  /** mapAddr is the inverse of the id-to-address part of mapInfo. */
  ghost predicate AddrOk(mi: InfoMap, ma: map<NetAddr, Id>) {
    && (forall id :: id in mi ==> mi[id].addr.ip in ma && ma[mi[id].addr.ip] == id)
    && (forall ip :: ip in ma ==> ma[ip] in mi && mi[ma[ip]].addr.ip == ip)
  }

  /** vRandom is a permutation of the ids, and each entry knows its place in it. */
  ghost predicate RandomOk(mi: InfoMap, vr: seq<Id>) {
    && (forall id :: id in mi ==> 0 <= mi[id].nRandomPos < |vr| && vr[mi[id].nRandomPos] == id)
    && (forall i :: 0 <= i < |vr| ==> vr[i] in mi && mi[vr[i]].nRandomPos == i)
  }

  ghost predicate Distinct(s: seq<Id>) {
    forall i, j :: 0 <= i < j < |s| ==> s[i] != s[j]
  }

  lemma {:induction false} DistinctMultiset(s: seq<Id>, x: Id)
    requires Distinct(s)
    ensures multiset(s)[x] == if x in s then 1 else 0
  {
    if s != [] {
      DistinctMultiset(s[1..], x);
      assert s == [s[0]] + s[1..];
    }
  }

  ghost predicate TriedEntry(mi: InfoMap, h: TriedHash, b: nat, id: Id) {
    id in mi && mi[id].fInTried && h(mi[id].addr) == b
  }

  /** The tried entries are in the bucket their address selects, once, and nothing else is. */
  ghost predicate TriedOk(mi: InfoMap, vt: seq<seq<Id>>, h: TriedHash) {
    && |vt| == TRIED_BUCKET_COUNT
    && (forall b :: 0 <= b < |vt| ==> |vt[b]| <= TRIED_BUCKET_SIZE && Distinct(vt[b]))
    && (forall b, id :: 0 <= b < |vt| && id in vt[b] ==> TriedEntry(mi, h, b, id))
    && (forall id :: id in mi && mi[id].fInTried ==> id in vt[h(mi[id].addr)])
  }

  /** The new buckets that hold id. */
  function BucketsOf(vn: seq<set<Id>>, id: Id): set<nat> {
    set b: nat | 0 <= b < |vn| && id in vn[b]
  }

  /**
   * Each new entry counts the new buckets it is in. While an address is being
   * added, its count is one ahead: `pending` names it then, and is -1 otherwise.
   */
  ghost predicate NewOk(mi: InfoMap, vn: seq<set<Id>>, pending: int) {
    && |vn| == NEW_BUCKET_COUNT
    && (forall b :: 0 <= b < |vn| ==> |vn[b]| <= NEW_BUCKET_SIZE)
    && (forall b, id :: 0 <= b < |vn| && id in vn[b] ==> id in mi)
    && (forall id :: id in mi ==>
          mi[id].nRefCount == |BucketsOf(vn, id)| + if id == pending then 1 else 0)
    && (forall id :: id in mi ==> CountOk(mi[id]))
  }

  ghost predicate CountOk(info: AddrInfo) {
    if info.fInTried then info.nRefCount == 0 else 1 <= info.nRefCount <= NEW_BUCKETS_PER_ADDRESS
  }

  ghost predicate TimesOk(mi: InfoMap) {
    forall id :: id in mi ==>
      && mi[id].nLastTry >= 0 && mi[id].nLastSuccess >= 0
      && (mi[id].fInTried ==> mi[id].nLastSuccess > 0)
  }

  function TriedIds(mi: InfoMap): set<Id> {
    set id | id in mi && mi[id].fInTried
  }

  function NewIds(mi: InfoMap): set<Id> {
    set id | id in mi && !mi[id].fInTried
  }

  ghost predicate CountsOk(mi: InfoMap, nTried: int, nNew: int) {
    nTried == |TriedIds(mi)| && nNew == |NewIds(mi)|
  }

  ghost predicate IdsOk(mi: InfoMap, nIdCount: nat) {
    forall id :: id in mi ==> id < nIdCount
  }

  /** All the tables together. */
  ghost predicate Consistent(mi: InfoMap, ma: map<NetAddr, Id>, vr: seq<Id>, vt: seq<seq<Id>>, vn: seq<set<Id>>,
      nTried: int, nNew: int, nIdCount: nat, h: TriedHash, pending: int)
  {
    && AddrOk(mi, ma) && RandomOk(mi, vr) && TriedOk(mi, vt, h) && NewOk(mi, vn, pending)
    && TimesOk(mi) && CountsOk(mi, nTried, nNew) && IdsOk(mi, nIdCount)
  }

  // ---------- changes that touch one entry's statistics or place ----------

  /** mi' differs from mi in places in vRandom only. */
  ghost predicate SameButPlaces(mi: InfoMap, mi': InfoMap) {
    && mi'.Keys == mi.Keys
    && forall id :: id in mi ==> mi'[id] == mi[id].(nRandomPos := mi'[id].nRandomPos)
  }

  /** mi' differs from mi in times, services and attempts only. */
  ghost predicate SameButStats(mi: InfoMap, mi': InfoMap) {
    && mi'.Keys == mi.Keys
    && forall id :: id in mi ==> SameEntry(mi[id], mi'[id])
  }

  ghost predicate SameEntry(info: AddrInfo, info': AddrInfo) {
    && info'.addr == info.addr && info'.source == info.source
    && info'.nRefCount == info.nRefCount && info'.fInTried == info.fInTried
    && info'.nRandomPos == info.nRandomPos
  }

  lemma SameFlagsSameIds(mi: InfoMap, mi': InfoMap)
    requires mi.Keys == mi'.Keys && forall id :: id in mi ==> mi[id].fInTried == mi'[id].fInTried
    ensures TriedIds(mi) == TriedIds(mi') && NewIds(mi) == NewIds(mi')
  {
    forall id
      ensures id in TriedIds(mi) <==> id in TriedIds(mi')
      ensures id in NewIds(mi) <==> id in NewIds(mi')
    {
      assert id in mi <==> id in mi';
    }
  }

  lemma TimesUpdate(mi: InfoMap, id: Id, info: AddrInfo)
    requires TimesOk(mi) && info.nLastTry >= 0 && info.nLastSuccess >= 0 && (info.fInTried ==> info.nLastSuccess > 0)
    ensures TimesOk(mi[id := info])
  {
  }

  lemma StatsKeep(mi: InfoMap, mi': InfoMap, ma: map<NetAddr, Id>, vr: seq<Id>, vt: seq<seq<Id>>, vn: seq<set<Id>>,
      nTried: int, nNew: int, nIdCount: nat, h: TriedHash, pending: int)
    requires Consistent(mi, ma, vr, vt, vn, nTried, nNew, nIdCount, h, pending)
    requires SameButStats(mi, mi') && TimesOk(mi')
    ensures Consistent(mi', ma, vr, vt, vn, nTried, nNew, nIdCount, h, pending)
  {
    SameFlagsSameIds(mi, mi');
    forall b, id | 0 <= b < |vt| && id in vt[b]
      ensures TriedEntry(mi', h, b, id)
    {
      assert TriedEntry(mi, h, b, id);
    }
  }

  /** Places in vRandom do not matter to the bucket tables. */
  lemma SamePlacesFrame(mi: InfoMap, mi': InfoMap, vt: seq<seq<Id>>, vn: seq<set<Id>>, h: TriedHash, pending: int)
    requires TriedOk(mi, vt, h) && NewOk(mi, vn, pending) && SameButPlaces(mi, mi')
    ensures TriedOk(mi', vt, h) && NewOk(mi', vn, pending)
  {
    TriedFrame(mi, mi', vt, h);
  }

  // ---------- vRandom ----------

  function Swapped<T>(s: seq<T>, i: nat, j: nat): seq<T>
    requires i < |s| && j < |s|
  {
    s[i := s[j]][j := s[i]]
  }

  function WithPlace(mi: InfoMap, id: Id, pos: int): InfoMap
    requires id in mi
  {
    mi[id := mi[id].(nRandomPos := pos)]
  }

  lemma SwapKeepsRandom(mi: InfoMap, vr: seq<Id>, i: nat, j: nat)
    requires RandomOk(mi, vr) && i < |vr| && j < |vr| && i != j
    ensures vr[i] in mi && vr[j] in mi
    ensures var mi' := WithPlace(WithPlace(mi, vr[i], j), vr[j], i);
      RandomOk(mi', Swapped(vr, i, j)) && SameButPlaces(mi, mi')
  {
  }

  /** Removing the entry that is last in vRandom. */
  lemma RemoveLast(mi: InfoMap, ma: map<NetAddr, Id>, vr: seq<Id>, id: Id)
    requires AddrOk(mi, ma) && RandomOk(mi, vr) && vr != [] && vr[|vr| - 1] == id
    ensures AddrOk(mi - {id}, ma - {mi[id].addr.ip}) && RandomOk(mi - {id}, vr[..|vr| - 1])
  {
  }

  // ---------- new buckets ----------

  /** Taking id out of bucket b leaves every other entry's buckets alone. */
  lemma BucketRemoved(vn: seq<set<Id>>, b: nat, id: Id, x: Id)
    requires b < |vn| && id in vn[b]
    ensures BucketsOf(vn[b := vn[b] - {id}], x) == if x == id then BucketsOf(vn, x) - {b} else BucketsOf(vn, x)
  {
  }

  lemma BucketAdded(vn: seq<set<Id>>, b: nat, id: Id, x: Id)
    requires b < |vn|
    ensures BucketsOf(vn[b := vn[b] + {id}], x) == if x == id then BucketsOf(vn, x) + {b} else BucketsOf(vn, x)
  {
  }

  /** An entry in a bucket has a positive count. */
  lemma InBucketCounted(mi: InfoMap, vn: seq<set<Id>>, pending: int, b: nat, id: Id)
    requires NewOk(mi, vn, pending) && b < |vn| && id in vn[b]
    ensures id in mi && !mi[id].fInTried && mi[id].nRefCount >= 1
    ensures id != pending && mi[id].nRefCount == 1 ==> BucketsOf(vn, id) == {b}
  {
    assert b in BucketsOf(vn, id);
    if id != pending && mi[id].nRefCount == 1 {
      assert |BucketsOf(vn, id) - {b}| == 0;
      assert BucketsOf(vn, id) == {b} + (BucketsOf(vn, id) - {b});
    }
  }

  lemma BucketEntriesNew(mi: InfoMap, vn: seq<set<Id>>, pending: int, b: nat)
    requires NewOk(mi, vn, pending) && b < |vn|
    ensures forall id :: id in vn[b] ==> id in mi
  {
  }

  /** A new entry is in some bucket. */
  lemma NewEntryHasBucket(mi: InfoMap, vn: seq<set<Id>>, id: Id)
    requires NewOk(mi, vn, -1) && id in mi && !mi[id].fInTried
    ensures exists b :: 0 <= b < |vn| && id in vn[b]
  {
    assert |BucketsOf(vn, id)| > 0;
    var b :| b in BucketsOf(vn, id);
  }

  /** One reference fewer, the entry staying. */
  lemma DropReference(mi: InfoMap, vn: seq<set<Id>>, pending: int, b: nat, id: Id)
    requires NewOk(mi, vn, pending) && b < |vn| && id in vn[b] && id != pending && mi[id].nRefCount > 1
    ensures NewOk(mi[id := mi[id].(nRefCount := mi[id].nRefCount - 1)], vn[b := vn[b] - {id}], pending)
  {
    hide BucketsOf;
    InBucketCounted(mi, vn, pending, b, id);
    forall x {
      CountRemoved(vn, b, id, x);
    }
  }

  lemma CountRemoved(vn: seq<set<Id>>, b: nat, id: Id, x: Id)
    requires b < |vn| && id in vn[b]
    ensures |BucketsOf(vn[b := vn[b] - {id}], x)| == |BucketsOf(vn, x)| - if x == id then 1 else 0
  {
    BucketRemoved(vn, b, id, x);
    assert b in BucketsOf(vn, id);
  }

  /** The last reference goes, and the entry with it. */
  lemma DropLastReference(mi: InfoMap, vn: seq<set<Id>>, pending: int, b: nat, id: Id)
    requires NewOk(mi, vn, pending) && b < |vn| && id in vn[b] && id != pending && mi[id].nRefCount == 1
    ensures NewOk(mi - {id}, vn[b := vn[b] - {id}], pending)
  {
    InBucketCounted(mi, vn, pending, b, id);
    forall x {
      BucketRemoved(vn, b, id, x);
    }
    var vn' := vn[b := vn[b] - {id}];
    assert BucketsOf(vn', id) == {};
    assert forall c :: 0 <= c < |vn'| && id in vn'[c] ==> c in BucketsOf(vn', id);
  }

  /** The whole state after an entry lost a reference that was not its last. */
  lemma Dereferenced(mi: InfoMap, ma: map<NetAddr, Id>, vr: seq<Id>, vt: seq<seq<Id>>, vn: seq<set<Id>>,
      nTried: int, nNew: int, nIdCount: nat, h: TriedHash, pending: int, b: nat, id: Id)
    requires Consistent(mi, ma, vr, vt, vn, nTried, nNew, nIdCount, h, pending)
    requires b < |vn| && id in vn[b] && id != pending && mi[id].nRefCount > 1
    ensures Consistent(mi[id := mi[id].(nRefCount := mi[id].nRefCount - 1)], ma, vr, vt, vn[b := vn[b] - {id}],
              nTried, nNew, nIdCount, h, pending)
  {
    hide AddrOk, RandomOk, TriedOk, NewOk;
    InBucketCounted(mi, vn, pending, b, id);
    DropReference(mi, vn, pending, b, id);
    var mi' := mi[id := mi[id].(nRefCount := mi[id].nRefCount - 1)];
    TriedFrame(mi, mi', vt, h);
    FlagsFrame(mi, mi', ma, vr, nIdCount);
    OneEntryFrame(mi, id, mi'[id].nRefCount, nTried, nNew);
  }

  /** The whole state after an entry lost its last reference and was deleted. */
  lemma Deleted(mi: InfoMap, mi': InfoMap, ma: map<NetAddr, Id>, ma': map<NetAddr, Id>, vr: seq<Id>, vr': seq<Id>,
      vt: seq<seq<Id>>, vn: seq<set<Id>>,
      nTried: int, nNew: int, nIdCount: nat, h: TriedHash, pending: int, b: nat, id: Id)
    requires Consistent(mi, ma, vr, vt, vn, nTried, nNew, nIdCount, h, pending)
    requires b < |vn| && id in vn[b] && id != pending && mi[id].nRefCount == 1
    requires AddrOk(mi', ma') && RandomOk(mi', vr') && SameButPlaces(mi - {id}, mi')
    ensures Consistent(mi', ma', vr', vt, vn[b := vn[b] - {id}], nTried, nNew - 1, nIdCount, h, pending)
  {
    InBucketCounted(mi, vn, pending, b, id);
    var rest := mi - {id};
    DropLastReference(mi, vn, pending, b, id);
    TriedFrame(mi, rest, vt, h);
    CountsRemove(mi, id);
    SamePlacesFrame(rest, mi', vt, vn[b := vn[b] - {id}], h, pending);
    SameFlagsSameIds(rest, mi');
  }

  /** The pending reference becomes a bucket. */
  lemma SettlePending(mi: InfoMap, vn: seq<set<Id>>, b: nat, id: Id)
    requires NewOk(mi, vn, id) && id in mi && b < |vn| && id !in vn[b] && |vn[b]| < NEW_BUCKET_SIZE
    ensures NewOk(mi, vn[b := vn[b] + {id}], -1)
  {
    forall x {
      BucketAdded(vn, b, id, x);
    }
  }

  // ---------- tables with one entry more, or one fewer ----------

  /** The tried table depends on the tried entries only. */
  lemma TriedFrame(mi: InfoMap, mi': InfoMap, vt: seq<seq<Id>>, h: TriedHash)
    requires TriedOk(mi, vt, h)
    requires forall id :: id in mi && mi[id].fInTried ==> id in mi' && mi'[id].fInTried && mi'[id].addr == mi[id].addr
    requires forall id :: id in mi' && mi'[id].fInTried ==> id in mi && mi[id].fInTried
    ensures TriedOk(mi', vt, h)
  {
    forall b, id | 0 <= b < |vt| && id in vt[b]
      ensures TriedEntry(mi', h, b, id)
    {
      assert TriedEntry(mi, h, b, id);
    }
  }

  lemma IdsAdd(mi: InfoMap, id: Id, info: AddrInfo)
    requires id !in mi
    ensures TriedIds(mi[id := info]) == if info.fInTried then TriedIds(mi) + {id} else TriedIds(mi)
    ensures NewIds(mi[id := info]) == if info.fInTried then NewIds(mi) else NewIds(mi) + {id}
  {
    assert forall x :: x in mi[id := info] <==> x in mi || x == id;
  }

  lemma CountsAdd(mi: InfoMap, id: Id, info: AddrInfo)
    requires id !in mi
    ensures |TriedIds(mi[id := info])| == |TriedIds(mi)| + if info.fInTried then 1 else 0
    ensures |NewIds(mi[id := info])| == |NewIds(mi)| + if info.fInTried then 0 else 1
  {
    IdsAdd(mi, id, info);
    assert id !in TriedIds(mi) && id !in NewIds(mi);
  }

  lemma CountsRemove(mi: InfoMap, id: Id)
    requires id in mi
    ensures |TriedIds(mi - {id})| == |TriedIds(mi)| - if mi[id].fInTried then 1 else 0
    ensures |NewIds(mi - {id})| == |NewIds(mi)| - if mi[id].fInTried then 0 else 1
  {
    CountsAdd(mi - {id}, id, mi[id]);
    assert (mi - {id})[id := mi[id]] == mi;
  }

  /** A fresh address, with no bucket yet. */
  lemma AddEntry(mi: InfoMap, ma: map<NetAddr, Id>, vr: seq<Id>, id: Id, info: AddrInfo)
    requires AddrOk(mi, ma) && RandomOk(mi, vr) && id !in mi && info.addr.ip !in ma && info.nRandomPos == |vr|
    ensures AddrOk(mi[id := info], ma[info.addr.ip := id]) && RandomOk(mi[id := info], vr + [id])
  {
  }

  /** One reference is promised to an entry that has fewer than four. */
  lemma PromiseReference(mi: InfoMap, vn: seq<set<Id>>, id: Id)
    requires NewOk(mi, vn, -1) && id in mi && !mi[id].fInTried && mi[id].nRefCount < NEW_BUCKETS_PER_ADDRESS
    ensures NewOk(mi[id := mi[id].(nRefCount := mi[id].nRefCount + 1)], vn, id)
  {
  }

  lemma PromiseFirstReference(mi: InfoMap, vn: seq<set<Id>>, id: Id, info: AddrInfo)
    requires NewOk(mi, vn, -1) && id !in mi && !info.fInTried && info.nRefCount == 1
    ensures NewOk(mi[id := info], vn, id)
  {
    assert BucketsOf(vn, id) == {};
  }

  /** vn without id in any bucket. */
  function Without(vn: seq<set<Id>>, id: Id): (r: seq<set<Id>>)
    ensures |r| == |vn|
  {
    seq(|vn|, (b: nat) requires b < |vn| => vn[b] - {id})
  }

  lemma WithoutBuckets(vn: seq<set<Id>>, id: Id)
    ensures BucketsOf(Without(vn, id), id) == {}
    ensures forall x :: x != id ==> BucketsOf(Without(vn, id), x) == BucketsOf(vn, x)
  {
    forall x | x != id
      ensures BucketsOf(Without(vn, id), x) == BucketsOf(vn, x)
    {
    }
  }

  /** Out of every new bucket, the entry is in no table but mapAddr and vRandom. */
  lemma TakeOutOfNew(mi: InfoMap, vt: seq<seq<Id>>, vn: seq<set<Id>>, h: TriedHash, id: Id)
    requires TriedOk(mi, vt, h) && NewOk(mi, vn, -1) && id in mi && !mi[id].fInTried
    ensures TriedOk(mi - {id}, vt, h) && NewOk(mi - {id}, Without(vn, id), -1)
  {
    TriedFrame(mi, mi - {id}, vt, h);
    WithoutBuckets(vn, id);
    var vn' := Without(vn, id);
    forall b | 0 <= b < |vn'|
      ensures |vn'[b]| <= NEW_BUCKET_SIZE
    {
      if id in vn[b] {
        assert |vn'[b]| == |vn[b]| - 1;
      } else {
        assert vn'[b] == vn[b];
      }
    }
  }

  /** A tried entry with no references does not disturb the new buckets. */
  lemma TriedBesideNew(mi: InfoMap, vn: seq<set<Id>>, id: Id, info: AddrInfo)
    requires NewOk(mi, vn, -1) && id !in mi && info.fInTried && info.nRefCount == 0
    ensures NewOk(mi[id := info], vn, -1)
  {
    assert BucketsOf(vn, id) == {};
  }

  lemma AppendTried(mi: InfoMap, vt: seq<seq<Id>>, h: TriedHash, id: Id, info: AddrInfo)
    requires TriedOk(mi, vt, h) && id !in mi && info.fInTried && |vt[h(info.addr)]| < TRIED_BUCKET_SIZE
    ensures TriedOk(mi[id := info], vt[h(info.addr) := vt[h(info.addr)] + [id]], h)
  {
    var k := h(info.addr);
    var mi', vt' := mi[id := info], vt[k := vt[k] + [id]];
    forall b, x | 0 <= b < |vt'| && x in vt'[b]
      ensures TriedEntry(mi', h, b, x)
    {
      assert x in vt[b] || (b == k && x == id);
      assert x in vt[b] ==> TriedEntry(mi, h, b, x);
    }
    assert id !in vt[k] by { assert id in vt[k] ==> TriedEntry(mi, h, k, id); }
  }

  function PutAt(s: seq<Id>, pos: nat, id: Id): seq<Id>
    requires pos < |s|
  {
    s[pos := id]
  }

  /** The tried entry at a position makes room for another one of the same bucket. */
  lemma ReplaceTried(mi: InfoMap, vt: seq<seq<Id>>, h: TriedHash, id: Id, info: AddrInfo, pos: nat, evicted: AddrInfo)
    requires TriedOk(mi, vt, h) && id !in mi && info.fInTried && pos < |vt[h(info.addr)]| && !evicted.fInTried
    ensures var k := h(info.addr);
      TriedOk(mi[vt[k][pos] := evicted][id := info], vt[k := PutAt(vt[k], pos, id)], h)
  {
    var k := h(info.addr);
    var old_ := vt[k][pos];
    var mi', vt' := mi[old_ := evicted][id := info], vt[k := PutAt(vt[k], pos, id)];
    assert TriedEntry(mi, h, k, old_);
    forall b, x | 0 <= b < |vt'| && x in vt'[b]
      ensures TriedEntry(mi', h, b, x)
    {
      assert x in vt[b] || (b == k && x == id);
      assert x in vt[b] ==> TriedEntry(mi, h, b, x);
      assert forall j :: 0 <= j < |vt'[k]| ==> vt'[k][j] != old_;
    }
    assert id !in vt[k] by { assert id in vt[k] ==> TriedEntry(mi, h, k, id); }
    forall x | x in mi' && mi'[x].fInTried
      ensures x in vt'[h(mi'[x].addr)]
    {
      if x == id {
        assert vt'[k][pos] == id;
      } else {
        var b := h(mi[x].addr);
        var j :| 0 <= j < |vt[b]| && vt[b][j] == x;
        assert vt'[b][j] == x;
      }
    }
  }

  /** The evicted entry starts again with one new bucket. */
  lemma EvictToNew(mi: InfoMap, vn: seq<set<Id>>, id: Id, info: AddrInfo, b: nat)
    requires NewOk(mi, vn, -1) && id in mi && mi[id].fInTried && b < |vn| && |vn[b]| < NEW_BUCKET_SIZE
    requires !info.fInTried && info.nRefCount == 1
    ensures NewOk(mi[id := info], vn[b := vn[b] + {id}], -1)
  {
    forall x {
      BucketAdded(vn, b, id, x);
    }
    assert |BucketsOf(vn, id)| == 0;
  }

  lemma EvictedIsNotNew(mi: InfoMap, vn: seq<set<Id>>, id: Id)
    requires NewOk(mi, vn, -1) && id in mi && mi[id].fInTried
    ensures forall b :: 0 <= b < |vn| ==> id !in vn[b]
  {
    forall b | 0 <= b < |vn|
      ensures id !in vn[b]
    {
      assert id in vn[b] ==> b in BucketsOf(vn, id);
    }
  }

  /** The buckets from b on that hold id. */
  function BucketsFrom(vn: seq<set<Id>>, id: Id, b: nat): set<nat> {
    set c: nat | b <= c < |vn| && id in vn[c]
  }

  lemma BucketsFromStep(vn: seq<set<Id>>, id: Id, b: nat)
    requires b < |vn|
    ensures |BucketsFrom(vn, id, b)| == |BucketsFrom(vn, id, b + 1)| + if id in vn[b] then 1 else 0
  {
    if id in vn[b] {
      assert BucketsFrom(vn, id, b) == BucketsFrom(vn, id, b + 1) + {b};
    } else {
      assert BucketsFrom(vn, id, b) == BucketsFrom(vn, id, b + 1);
    }
  }

  lemma ReferencesCounted(mi: InfoMap, vn: seq<set<Id>>, id: Id)
    requires NewOk(mi, vn, -1) && id in mi
    ensures mi[id].nRefCount == |BucketsFrom(vn, id, 0)|
    ensures mi == mi[id := mi[id].(nRefCount := |BucketsFrom(vn, id, 0)|)]
  {
    assert BucketsOf(vn, id) == BucketsFrom(vn, id, 0);
  }

  // ---------- moving an entry to the tried table: the whole state ----------

  /** Places and addresses do not depend on flags and counts. */
  lemma FlagsFrame(mi: InfoMap, mi': InfoMap, ma: map<NetAddr, Id>, vr: seq<Id>, nIdCount: nat)
    requires AddrOk(mi, ma) && RandomOk(mi, vr) && IdsOk(mi, nIdCount) && mi'.Keys == mi.Keys
    requires forall id :: id in mi ==> mi'[id].addr == mi[id].addr && mi'[id].nRandomPos == mi[id].nRandomPos
    ensures AddrOk(mi', ma) && RandomOk(mi', vr) && IdsOk(mi', nIdCount)
  {
  }

  lemma FillTried(mi: InfoMap, ma: map<NetAddr, Id>, vr: seq<Id>, vt: seq<seq<Id>>, vn: seq<set<Id>>,
      nTried: int, nNew: int, nIdCount: nat, h: TriedHash, id: Id, info: AddrInfo)
    requires Consistent(mi, ma, vr, vt, vn, nTried, nNew, nIdCount, h, -1)
    requires id in mi && !mi[id].fInTried && mi[id].nLastSuccess > 0
    requires info == mi[id].(nRefCount := 0, fInTried := true) && |vt[h(info.addr)]| < TRIED_BUCKET_SIZE
    ensures Consistent(mi[id := info], ma, vr, vt[h(info.addr) := vt[h(info.addr)] + [id]], Without(vn, id),
              nTried + 1, nNew - 1, nIdCount, h, -1)
  {
    hide BucketsOf, Without, CountOk, AddrOk, RandomOk, NewOk, TriedOk, IdsOk, TriedIds, NewIds;
    var rest := mi - {id};
    TakeOutOfNew(mi, vt, vn, h, id);
    TriedBesideNew(rest, Without(vn, id), id, info);
    AppendTried(rest, vt, h, id, info);
    CountsRemove(mi, id);
    CountsAdd(rest, id, info);
    FlagsFrame(mi, mi[id := info], ma, vr, nIdCount);
    assert rest[id := info] == mi[id := info];
  }

  /** The new bucket an evicted entry goes to: its own if there is room, else the one just vacated. */
  function BackTo(vn: seq<set<Id>>, back: nat, nOrigin: nat): nat
    requires back < |vn|
  {
    if |vn[back]| < NEW_BUCKET_SIZE then back else nOrigin
  }

  lemma OriginHasRoom(mi: InfoMap, vn: seq<set<Id>>, id: Id, back: nat, nOrigin: nat)
    requires NewOk(mi, vn, -1) && back < |vn| && nOrigin < |vn| && id in vn[nOrigin]
    ensures var vn' := Without(vn, id); |vn'[BackTo(vn', back, nOrigin)]| < NEW_BUCKET_SIZE
  {
    assert |vn[nOrigin] - {id}| == |vn[nOrigin]| - 1;
  }

  lemma TableSizes(mi: InfoMap, vt: seq<seq<Id>>, vn: seq<set<Id>>, h: TriedHash)
    requires TriedOk(mi, vt, h)
    ensures |vt| == TRIED_BUCKET_COUNT
    ensures forall pending :: NewOk(mi, vn, pending) ==> |vn| == NEW_BUCKET_COUNT
  {
  }

  lemma TriedAt(mi: InfoMap, vt: seq<seq<Id>>, h: TriedHash, k: nat, pos: nat)
    requires TriedOk(mi, vt, h) && k < |vt| && pos < |vt[k]|
    ensures TriedEntry(mi, h, k, vt[k][pos])
  {
  }

  /** Times stay in order when the successful entry becomes tried. */
  lemma TimesSwap(mi: InfoMap, id: Id, info: AddrInfo, e: Id, evicted: AddrInfo)
    requires TimesOk(mi) && id in mi && e in mi && mi[id].nLastSuccess > 0
    requires info == mi[id].(nRefCount := 0, fInTried := true) && evicted == mi[e].(nRefCount := 1, fInTried := false)
    ensures TimesOk(mi[id := info]) && TimesOk(mi[e := evicted][id := info])
  {
  }

  lemma SwapTried(mi: InfoMap, ma: map<NetAddr, Id>, vr: seq<Id>, vt: seq<seq<Id>>, vn: seq<set<Id>>,
      nTried: int, nNew: int, nIdCount: nat, h: TriedHash, id: Id, info: AddrInfo,
      pos: nat, evicted: AddrInfo, back: nat, nOrigin: nat)
    requires Consistent(mi, ma, vr, vt, vn, nTried, nNew, nIdCount, h, -1)
    requires id in mi && !mi[id].fInTried && mi[id].nLastSuccess > 0
    requires info == mi[id].(nRefCount := 0, fInTried := true) && pos < |vt[h(info.addr)]|
    requires var e := vt[h(info.addr)][pos]; e in mi && evicted == mi[e].(nRefCount := 1, fInTried := false)
    requires back < |vn| && nOrigin < |vn| && id in vn[nOrigin]
    ensures var k, vn' := h(info.addr), Without(vn, id);
      var e, b := vt[k][pos], BackTo(vn', back, nOrigin);
      Consistent(mi[e := evicted][id := info], ma, vr, vt[k := PutAt(vt[k], pos, id)], vn'[b := vn'[b] + {e}],
        nTried, nNew, nIdCount, h, -1)
  {
    hide TimesOk, CountsOk, BucketsOf, Without, CountOk, AddrOk, RandomOk, NewOk, TriedOk, IdsOk, TriedIds, NewIds;
    var rest, k, vn' := mi - {id}, h(info.addr), Without(vn, id);
    TableSizes(mi, vt, vn, h);
    TriedAt(mi, vt, h, k, pos);
    var e, b := vt[k][pos], BackTo(vn', back, nOrigin);
    OriginHasRoom(mi, vn, id, back, nOrigin);
    TakeOutOfNew(mi, vt, vn, h, id);
    EvictToNew(rest, vn', e, evicted, b);
    TriedBesideNew(rest[e := evicted], vn'[b := vn'[b] + {e}], id, info);
    ReplaceTried(rest, vt, h, id, info, pos, evicted);
    SwapKeepsCounts(mi, id, info, e, evicted, nTried, nNew);
    assert rest[e := evicted][id := info] == mi[e := evicted][id := info];
    TimesSwap(mi, id, info, e, evicted);
    FlagsFrame(mi, mi[e := evicted][id := info], ma, vr, nIdCount);
  }

  lemma SwapKeepsCounts(mi: InfoMap, id: Id, info: AddrInfo, e: Id, evicted: AddrInfo, nTried: int, nNew: int)
    requires CountsOk(mi, nTried, nNew)
    requires id in mi && e in mi && id != e && !mi[id].fInTried && mi[e].fInTried
    requires info.fInTried && !evicted.fInTried
    ensures CountsOk(mi[e := evicted][id := info], nTried, nNew)
  {
    var r := mi - {id} - {e};
    CountsRemove(mi, id);
    CountsRemove(mi - {id}, e);
    CountsAdd(r, e, evicted);
    CountsAdd(r[e := evicted], id, info);
    assert r[e := evicted][id := info] == mi[e := evicted][id := info];
  }

  /** The first b buckets have lost the id. */
  ghost predicate ErasedUpTo(vn: seq<set<Id>>, vn': seq<set<Id>>, id: Id, b: nat) {
    |vn'| == |vn| && forall c :: 0 <= c < |vn| ==> vn'[c] == if c < b then vn[c] - {id} else vn[c]
  }

  lemma EraseNone(vn: seq<set<Id>>, id: Id)
    ensures ErasedUpTo(vn, vn, id, 0)
  {
  }

  lemma EraseOne(vn: seq<set<Id>>, vn': seq<set<Id>>, id: Id, b: nat)
    requires ErasedUpTo(vn, vn', id, b) && b < |vn|
    ensures vn'[b] == vn[b]
    ensures ErasedUpTo(vn, if id in vn'[b] then vn'[b := vn'[b] - {id}] else vn', id, b + 1)
  {
    assert id !in vn[b] ==> vn[b] - {id} == vn[b];
  }

  lemma ErasedEverywhere(vn: seq<set<Id>>, vn': seq<set<Id>>, id: Id)
    requires ErasedUpTo(vn, vn', id, |vn|)
    ensures vn' == Without(vn, id)
    ensures BucketsFrom(vn, id, |vn|) == {}
  {
  }

  /** e was a tried entry; now it is a new one, in one bucket: its own, or nOrigin when that is full. */
  ghost predicate Returned(mi: InfoMap, mi': InfoMap, vn: seq<set<Id>>, vn': seq<set<Id>>,
      g: NewHash, nOrigin: nat, id: Id, e: Id)
  {
    && e in mi && e != id && mi[e].fInTried && |vn| == NEW_BUCKET_COUNT && nOrigin < |vn|
    && id in mi && mi' == mi[e := mi[e].(nRefCount := 1, fInTried := false)][id := mi[id].(nRefCount := 0, fInTried := true)]
    && var w := Without(vn, id);
       var b := BackTo(w, g(mi[e].addr, mi[e].source), nOrigin);
       vn' == w[b := w[b] + {e}]
  }

  lemma ReturnedMeans(mi: InfoMap, mi': InfoMap, vn: seq<set<Id>>, vn': seq<set<Id>>,
      g: NewHash, nOrigin: nat, id: Id, e: Id)
    requires Returned(mi, mi', vn, vn', g, nOrigin, id, e)
    ensures e in mi && e != id && id in mi && nOrigin < |vn|
    ensures mi' == mi[e := mi[e].(nRefCount := 1, fInTried := false)][id := mi[id].(nRefCount := 0, fInTried := true)]
  {
  }

  // ---------- addresses and samples ----------

  lemma OneIdPerAddress(mi: InfoMap, ma: map<NetAddr, Id>, ip: NetAddr)
    requires AddrOk(mi, ma)
    ensures forall id :: id in mi && mi[id].addr.ip == ip ==> ip in ma && ma[ip] == id
  {
  }

  lemma PromiseAnyReference(mi: InfoMap, vn: seq<set<Id>>, id: Id)
    requires id in mi && !mi[id].fInTried && mi[id].nRefCount < NEW_BUCKETS_PER_ADDRESS
    requires NewOk(mi, vn, -1) || (mi[id].nRefCount == 0 && NewOk(mi - {id}, vn, -1))
    ensures NewOk(mi[id := mi[id].(nRefCount := mi[id].nRefCount + 1)], vn, id)
  {
    var info := mi[id].(nRefCount := mi[id].nRefCount + 1);
    if NewOk(mi, vn, -1) {
      PromiseReference(mi, vn, id);
    } else {
      PromiseFirstReference(mi - {id}, vn, id, info);
      assert (mi - {id})[id := info] == mi[id := info];
    }
  }

  /** An entry that is in a bucket is not the one just created. */
  lemma AlreadyPlaced(mi: InfoMap, vn: seq<set<Id>>, id: Id, b: nat)
    requires id in mi && b < |vn| && id in vn[b]
    requires NewOk(mi, vn, -1) || NewOk(mi - {id}, vn, -1)
    ensures NewOk(mi, vn, -1)
  {
    assert NewOk(mi - {id}, vn, -1) ==> id in mi - {id};
  }

  lemma BucketBound(mi: InfoMap, vn: seq<set<Id>>, pending: int, b: nat)
    requires NewOk(mi, vn, pending) && b < NEW_BUCKET_COUNT
    ensures |vn| == NEW_BUCKET_COUNT && |vn[b]| <= NEW_BUCKET_SIZE
  {
  }

  /** Reference counts do not matter to times and totals. */
  lemma OneEntryFrame(mi: InfoMap, id: Id, nRefCount: int, nTried: int, nNew: int)
    requires CountsOk(mi, nTried, nNew) && TimesOk(mi) && id in mi
    ensures var mi' := mi[id := mi[id].(nRefCount := nRefCount)]; CountsOk(mi', nTried, nNew) && TimesOk(mi')
  {
    SameFlagsSameIds(mi, mi[id := mi[id].(nRefCount := nRefCount)]);
  }

  lemma NewEntryFrame(mi: InfoMap, id: Id, info: AddrInfo, nTried: int, nNew: int)
    requires CountsOk(mi, nTried, nNew) && TimesOk(mi) && id !in mi
    requires !info.fInTried && info.nLastTry >= 0 && info.nLastSuccess >= 0
    ensures CountsOk(mi[id := info], nTried, nNew + 1) && TimesOk(mi[id := info])
  {
    CountsAdd(mi, id, info);
  }

  lemma TriedHasNoReferences(mi: InfoMap, vn: seq<set<Id>>, id: Id)
    requires NewOk(mi, vn, -1) && id in mi && mi[id].fInTried
    ensures mi[id].nRefCount == 0
  {
    assert CountOk(mi[id]);
  }

  lemma NewHasReferences(mi: InfoMap, vn: seq<set<Id>>, id: Id)
    requires NewOk(mi, vn, -1) && id in mi && !mi[id].fInTried
    ensures 1 <= mi[id].nRefCount <= NEW_BUCKETS_PER_ADDRESS
  {
    assert CountOk(mi[id]);
  }

  /** The sampled places hold different entries. */
  lemma PlacesDiffer(mi: InfoMap, ma: map<NetAddr, Id>, vr: seq<Id>, i: nat, j: nat)
    requires AddrOk(mi, ma) && RandomOk(mi, vr) && i < j < |vr|
    ensures vr[i] in mi && vr[j] in mi && mi[vr[i]].addr.ip != mi[vr[j]].addr.ip
  {
    assert mi[vr[i]].nRandomPos == i && mi[vr[j]].nRandomPos == j;
  }

  /** A reshuffle of vRandom keeps everything else. */
  lemma PlacesKeep(mi: InfoMap, mi': InfoMap, ma: map<NetAddr, Id>, vt: seq<seq<Id>>, vn: seq<set<Id>>,
      nTried: int, nNew: int, nIdCount: nat, h: TriedHash)
    requires AddrOk(mi, ma) && TriedOk(mi, vt, h) && NewOk(mi, vn, -1)
    requires TimesOk(mi) && CountsOk(mi, nTried, nNew) && IdsOk(mi, nIdCount) && SameButPlaces(mi, mi')
    ensures AddrOk(mi', ma) && TriedOk(mi', vt, h) && NewOk(mi', vn, -1)
    ensures TimesOk(mi') && CountsOk(mi', nTried, nNew) && IdsOk(mi', nIdCount)
  {
    hide NewOk, TriedOk;
    SamePlacesFrame(mi, mi', vt, vn, h, -1);
    SameFlagsSameIds(mi, mi');
  }
}
