/** The address manager's own consistency check, what it decides, and that every consistent state passes it. */
module AddrCheck {
  import opened AddrTables

  // ---------- what the check decides ----------

  /** What reading mapAddr by subscript gives: a key that is missing is entered with the value 0. */
  function LookUp(ma: map<NetAddr, Id>, ip: NetAddr): Id {
    if ip in ma then ma[ip] else 0
  }

  /** mapAddr after the addresses of some entries have been read. */
  function Filled(mi: InfoMap, ma: map<NetAddr, Id>, seen: set<Id>): map<NetAddr, Id>
    requires seen <= mi.Keys
  {
    map ip | ip in ma.Keys + (set id | id in seen :: mi[id].addr.ip) :: LookUp(ma, ip)
  }

  lemma FillOne(mi: InfoMap, ma: map<NetAddr, Id>, seen: set<Id>, n: Id)
    requires seen <= mi.Keys && n in mi
    ensures var m, ip := Filled(mi, ma, seen), mi[n].addr.ip;
      && Filled(mi, ma, seen + {n}) == (if ip in m then m else m[ip := 0])
      && Filled(mi, ma, seen + {n})[ip] == LookUp(ma, ip)
  {
  }

  lemma FillNone(mi: InfoMap, ma: map<NetAddr, Id>)
    ensures Filled(mi, ma, {}) == ma
  {
  }

  ghost predicate EntryPasses(mi: InfoMap, ma: map<NetAddr, Id>, vr: seq<Id>, id: Id)
    requires id in mi
  {
    var info := mi[id];
    && (if info.fInTried then info.nLastSuccess != 0 && info.nRefCount == 0
        else 0 < info.nRefCount <= NEW_BUCKETS_PER_ADDRESS)
    && LookUp(ma, info.addr.ip) == id
    && 0 <= info.nRandomPos < |vr| && vr[info.nRandomPos] == id
    && info.nLastTry >= 0 && info.nLastSuccess >= 0
  }

  /** All entries of the first n buckets, with repetition. */
  ghost function TriedContents(vt: seq<seq<Id>>, n: nat): multiset<Id>
    requires n <= |vt|
  {
    if n == 0 then multiset{} else TriedContents(vt, n - 1) + multiset(vt[n - 1])
  }

  ghost function NewContents(vn: seq<set<Id>>, n: nat): multiset<Id>
    requires n <= |vn|
  {
    if n == 0 then multiset{} else NewContents(vn, n - 1) + multiset(vn[n - 1])
  }

  /** How often an id should occur in the new buckets. */
  ghost function References(mi: InfoMap, id: Id): int {
    if id in mi && !mi[id].fInTried then mi[id].nRefCount else 0
  }

  ghost predicate NewBucketsMatch(mi: InfoMap, vn: seq<set<Id>>) {
    forall id: Id :: NewContents(vn, |vn|)[id] == References(mi, id)
  }

  ghost predicate Passes(mi: InfoMap, ma: map<NetAddr, Id>, vr: seq<Id>, vt: seq<seq<Id>>, vn: seq<set<Id>>,
      nTried: int, nNew: int)
  {
    && |vr| == nTried + nNew
    && (forall id :: id in mi ==> EntryPasses(mi, ma, vr, id))
    && |TriedIds(mi)| == nTried && |NewIds(mi)| == nNew
    && TriedContents(vt, |vt|) == multiset(TriedIds(mi))
    && NewBucketsMatch(mi, vn)
  }

  // ---------- the check itself ----------

  method CheckEntries(mi: InfoMap, ma: map<NetAddr, Id>, vr: seq<Id>)
    returns (r: int, setTried: set<Id>, mapNew: map<Id, int>, mapAddr: map<NetAddr, Id>)
    ensures r == 0 <==> forall id :: id in mi ==> EntryPasses(mi, ma, vr, id)
    ensures r == 0 ==> setTried == TriedIds(mi) && mapNew == map id | id in NewIds(mi) :: mi[id].nRefCount
    ensures exists seen :: seen <= mi.Keys && mapAddr == Filled(mi, ma, seen)
    ensures r == 0 ==> mapAddr == Filled(mi, ma, mi.Keys)
  {
    hide Filled, LookUp;
    setTried, mapNew, mapAddr := {}, map[], ma;
    FillNone(mi, ma);
    assert mi.Keys - mi.Keys == {};
    var rest := mi.Keys;
    while rest != {}
      invariant rest <= mi.Keys
      invariant forall id :: id in mi.Keys - rest ==> EntryPasses(mi, ma, vr, id)
      invariant setTried == set id | id in mi && id !in rest && mi[id].fInTried
      invariant mapNew == map id | id in mi && id !in rest && !mi[id].fInTried :: mi[id].nRefCount
      invariant mapAddr == Filled(mi, ma, mi.Keys - rest)
    {
      var n :| n in rest;
      var info := mi[n];
      if info.fInTried {
        if info.nLastSuccess == 0 {
          return -1, setTried, mapNew, mapAddr;
        }
        if info.nRefCount != 0 {
          return -2, setTried, mapNew, mapAddr;
        }
        setTried := setTried + {n};
      } else {
        if info.nRefCount < 0 || info.nRefCount > NEW_BUCKETS_PER_ADDRESS {
          return -3, setTried, mapNew, mapAddr;
        }
        if info.nRefCount == 0 {
          return -4, setTried, mapNew, mapAddr;
        }
        mapNew := mapNew[n := info.nRefCount];
      }
      FillOne(mi, ma, mi.Keys - rest, n);
      assert mi.Keys - rest + {n} == mi.Keys - (rest - {n});
      if info.addr.ip !in mapAddr {
        mapAddr := mapAddr[info.addr.ip := 0];
      }
      if mapAddr[info.addr.ip] != n {
        return -5, setTried, mapNew, mapAddr;
      }
      if info.nRandomPos < 0 || info.nRandomPos >= |vr| || vr[info.nRandomPos] != n {
        return -14, setTried, mapNew, mapAddr;
      }
      if info.nLastTry < 0 {
        return -6, setTried, mapNew, mapAddr;
      }
      if info.nLastSuccess < 0 {
        return -8, setTried, mapNew, mapAddr;
      }
      rest := rest - {n};
    }
    r := 0;
    assert mi.Keys - rest == mi.Keys;
  }

  lemma {:induction false} TriedContentsGrow(vt: seq<seq<Id>>, m: nat, n: nat)
    requires m <= n <= |vt|
    ensures TriedContents(vt, m) <= TriedContents(vt, n)
  {
    if m < n {
      TriedContentsGrow(vt, m, n - 1);
    }
  }

  lemma {:induction false} NewContentsGrow(vn: seq<set<Id>>, m: nat, n: nat)
    requires m <= n <= |vn|
    ensures NewContents(vn, m) <= NewContents(vn, n)
  {
    if m < n {
      NewContentsGrow(vn, m, n - 1);
    }
  }

  /** Strikes every tried entry off the list once. */
  method CheckTried(vt: seq<seq<Id>>, listed: set<Id>) returns (r: int)
    ensures r == 0 || r == -11 || r == -13
    ensures r == 0 <==> TriedContents(vt, |vt|) == multiset(listed)
    ensures r == -13 ==> TriedContents(vt, |vt|) < multiset(listed)
  {
    var setTried := listed;
    for n := 0 to |vt|
      invariant multiset(listed) == multiset(setTried) + TriedContents(vt, n)
    {
      var vTried := vt[n];
      for j := 0 to |vTried|
        invariant multiset(listed) == multiset(setTried) + (TriedContents(vt, n) + multiset(vTried[..j]))
      {
        var it := vTried[j];
        assert vTried[..j + 1] == vTried[..j] + [it];
        if it !in setTried {
          assert vTried == vTried[..j + 1] + vTried[j + 1..];
          TriedContentsGrow(vt, n + 1, |vt|);
          assert TriedContents(vt, |vt|)[it] > multiset(listed)[it];
          return -11;
        }
        setTried := setTried - {it};
      }
      assert vTried[..|vTried|] == vTried;
    }
    if setTried != {} {
      ghost var x :| x in setTried;
      assert multiset(setTried)[x] > 0;
      return -13;
    }
    return 0;
  }

  /** mapNew holds what is still to be found of each id. */
  ghost predicate Remaining(mapNew: map<Id, int>, found: multiset<Id>, mi: InfoMap) {
    && (forall id :: id in mapNew ==> mapNew[id] > 0)
    && forall id: Id :: References(mi, id) == found[id] + if id in mapNew then mapNew[id] else 0
  }

  lemma FoundOne(mapNew: map<Id, int>, found: multiset<Id>, mi: InfoMap, it: Id)
    requires Remaining(mapNew, found, mi) && it in mapNew
    ensures mapNew[it] == 1 ==> Remaining(mapNew - {it}, found + multiset{it}, mi)
    ensures mapNew[it] != 1 ==> Remaining(mapNew[it := mapNew[it] - 1], found + multiset{it}, mi)
  {
  }

  /** Counts the references of one bucket down. */
  method StrikeBucket(vNew: set<Id>, expected: map<Id, int>, ghost found: multiset<Id>, ghost mi: InfoMap)
    returns (ok: bool, mapNew: map<Id, int>)
    requires Remaining(expected, found, mi)
    ensures ok ==> Remaining(mapNew, found + multiset(vNew), mi)
    ensures !ok ==> exists it :: it in vNew && found[it] + 1 > References(mi, it)
  {
    hide References;
    mapNew := expected;
    var rest := vNew;
    assert found + multiset(vNew - rest) == found;
    while rest != {}
      invariant rest <= vNew
      invariant Remaining(mapNew, found + multiset(vNew - rest), mi)
    {
      var it :| it in rest;
      if it !in mapNew {
        assert (found + multiset(vNew - rest))[it] == found[it];
        return false, mapNew;
      }
      assert multiset(vNew - (rest - {it})) == multiset(vNew - rest) + multiset{it};
      FoundOne(mapNew, found + multiset(vNew - rest), mi, it);
      assert found + multiset(vNew - rest) + multiset{it} == found + multiset(vNew - (rest - {it}));
      if mapNew[it] - 1 == 0 {
        mapNew := mapNew - {it};
      } else {
        mapNew := mapNew[it := mapNew[it] - 1];
      }
      rest := rest - {it};
    }
    assert vNew - rest == vNew;
    ok := true;
  }

  /** Counts every reference of the new buckets down. */
  method CheckNew(vn: seq<set<Id>>, expected: map<Id, int>, ghost mi: InfoMap) returns (r: int)
    requires Remaining(expected, multiset{}, mi)
    ensures r == 0 || r == -12 || r == -15
    ensures r == 0 <==> NewBucketsMatch(mi, vn)
  {
    hide References;
    var mapNew := expected;
    for n := 0 to |vn|
      invariant Remaining(mapNew, NewContents(vn, n), mi)
    {
      var ok;
      ok, mapNew := StrikeBucket(vn[n], mapNew, NewContents(vn, n), mi);
      if !ok {
        ghost var it :| it in vn[n] && NewContents(vn, n)[it] + 1 > References(mi, it);
        NewContentsGrow(vn, n + 1, |vn|);
        assert NewContents(vn, |vn|)[it] > References(mi, it);
        return -12;
      }
    }
    if mapNew.Keys != {} {
      ghost var x :| x in mapNew.Keys;
      assert References(mi, x) != NewContents(vn, |vn|)[x];
      return -15;
    }
    return 0;
  }

  lemma AllExpected(mi: InfoMap, ma: map<NetAddr, Id>, vr: seq<Id>, mapNew: map<Id, int>)
    requires forall id :: id in mi ==> EntryPasses(mi, ma, vr, id)
    requires mapNew == map id | id in NewIds(mi) :: mi[id].nRefCount
    ensures Remaining(mapNew, multiset{}, mi)
  {
    forall id | id in mapNew
      ensures mapNew[id] > 0
    {
      assert EntryPasses(mi, ma, vr, id);
    }
  }

  method Check_(mi: InfoMap, ma: map<NetAddr, Id>, vr: seq<Id>, vt: seq<seq<Id>>, vn: seq<set<Id>>, nTried: int, nNew: int)
    returns (r: int, mapAddr: map<NetAddr, Id>)
    ensures r == 0 <==> Passes(mi, ma, vr, vt, vn, nTried, nNew)
    ensures r == 0 ==> mapAddr == Filled(mi, ma, mi.Keys)
  {
    hide EntryPasses, TriedContents, Remaining, NewBucketsMatch, Filled;
    mapAddr := ma;
    if |vr| != nTried + nNew {
      return -7, mapAddr;
    }
    var setTried, mapNew;
    r, setTried, mapNew, mapAddr := CheckEntries(mi, ma, vr);
    if r != 0 {
      return;
    }
    assert mapNew.Keys == NewIds(mi);
    if |setTried| != nTried {
      return -9, mapAddr;
    }
    if |mapNew.Keys| != nNew {
      return -10, mapAddr;
    }
    AllExpected(mi, ma, vr, mapNew);
    var t := CheckTried(vt, setTried);
    if t == -11 {
      return t, mapAddr;
    }
    r := CheckNew(vn, mapNew, mi);
    if r == -12 {
      return;
    }
    if t != 0 {
      return t, mapAddr;
    }
  }

  // ---------- what the check misses ----------

  /** Every entry is found under its address. */
  ghost predicate AllFound(mi: InfoMap, ma: map<NetAddr, Id>) {
    forall id :: id in mi ==> mi[id].addr.ip in ma && ma[mi[id].addr.ip] == id
  }

  /**
   * When the check passes, every entry is found under its address, except perhaps the entry with id 0; and after the
   * check it is, because looking for it has entered it.
   */
  lemma PassesIffFound(mi: InfoMap, ma: map<NetAddr, Id>, vr: seq<Id>, vt: seq<seq<Id>>, vn: seq<set<Id>>,
      nTried: int, nNew: int)
    requires Passes(mi, ma, vr, vt, vn, nTried, nNew)
    ensures AllFound(mi, ma) <==> 0 !in mi || mi[0].addr.ip in ma
    ensures AllFound(mi, Filled(mi, ma, mi.Keys))
  {
    forall id | id in mi
      ensures LookUp(ma, mi[id].addr.ip) == id
    {
      assert EntryPasses(mi, ma, vr, id);
    }
  }

  /**
   * When the check passes, mapAddr fits mapInfo exactly when entry 0, if any, is found and there are no stale keys: of
   * those the check knows nothing.
   */
  lemma PassesIffAddrOk(mi: InfoMap, ma: map<NetAddr, Id>, vr: seq<Id>, vt: seq<seq<Id>>, vn: seq<set<Id>>,
      nTried: int, nNew: int)
    requires Passes(mi, ma, vr, vt, vn, nTried, nNew)
    ensures AddrOk(mi, ma) <==> (0 in mi ==> mi[0].addr.ip in ma) && |ma| == |mi|
  {
    hide Passes;
    PassesIffFound(mi, ma, vr, vt, vn, nTried, nNew);
    if AllFound(mi, ma) {
      FoundKeys(mi, ma, mi.Keys);
      NoStaleKeys(mi, ma);
      if |ma.Keys| == |mi.Keys| {
        SubsetFull(AddressesOf(mi, mi.Keys), ma.Keys);
      }
    }
  }

  ghost function AddressesOf(mi: InfoMap, ids: set<Id>): set<NetAddr>
    requires ids <= mi.Keys
  {
    set id | id in ids :: mi[id].addr.ip
  }

  /** Different entries are found under different addresses. */
  lemma {:induction false} FoundKeys(mi: InfoMap, ma: map<NetAddr, Id>, ids: set<Id>)
    requires AllFound(mi, ma) && ids <= mi.Keys
    ensures AddressesOf(mi, ids) <= ma.Keys && |AddressesOf(mi, ids)| == |ids|
  {
    if ids != {} {
      var x :| x in ids;
      FoundKeys(mi, ma, ids - {x});
      NewAddress(mi, ma, ids, x);
    }
  }

  lemma NewAddress(mi: InfoMap, ma: map<NetAddr, Id>, ids: set<Id>, x: Id)
    requires AllFound(mi, ma) && ids <= mi.Keys && x in ids
    ensures AddressesOf(mi, ids) == AddressesOf(mi, ids - {x}) + {mi[x].addr.ip}
    ensures mi[x].addr.ip !in AddressesOf(mi, ids - {x})
  {
  }

  /** With no stale keys the addresses of the entries are all there are. */
  lemma NoStaleKeys(mi: InfoMap, ma: map<NetAddr, Id>)
    requires AllFound(mi, ma)
    ensures AddrOk(mi, ma) <==> AddressesOf(mi, mi.Keys) == ma.Keys
  {
    if AddressesOf(mi, mi.Keys) == ma.Keys {
      forall ip | ip in ma
        ensures ma[ip] in mi && mi[ma[ip]].addr.ip == ip
      {
        var id :| id in mi.Keys && mi[id].addr.ip == ip;
      }
    }
  }

  lemma SubsetFull(s: set<NetAddr>, t: set<NetAddr>)
    requires s <= t && |s| == |t|
    ensures s == t
  {
    assert t == s + (t - s);
    assert |t - s| == 0;
  }

  /** In every consistent state with an entry 0 the check misses that its address is gone from mapAddr. */
  lemma LostAddressPasses(mi: InfoMap, ma: map<NetAddr, Id>, vr: seq<Id>, vt: seq<seq<Id>>, vn: seq<set<Id>>,
      nTried: int, nNew: int, nIdCount: nat, h: TriedHash)
    requires Consistent(mi, ma, vr, vt, vn, nTried, nNew, nIdCount, h, -1) && 0 in mi
    ensures var lost := ma - {mi[0].addr.ip};
      Passes(mi, lost, vr, vt, vn, nTried, nNew) && !AllFound(mi, lost) && !AddrOk(mi, lost)
  {
    hide TriedOk, NewOk, TimesOk, CountsOk, RandomOk;
    ConsistentPasses(mi, ma, vr, vt, vn, nTried, nNew, nIdCount, h);
    var lost := ma - {mi[0].addr.ip};
    forall id | id in mi
      ensures EntryPasses(mi, lost, vr, id)
    {
      assert EntryPasses(mi, ma, vr, id) && ma[mi[id].addr.ip] == id;
    }
  }

  // ---------- consistent states pass ----------

  /** vRandom lists every id once. */
  lemma RandomSize(mi: InfoMap, vr: seq<Id>)
    requires RandomOk(mi, vr)
    ensures |vr| == |mi.Keys|
  {
    assert Distinct(vr) by {
      forall i, j | 0 <= i < j < |vr|
        ensures vr[i] != vr[j]
      {
        assert mi[vr[i]].nRandomPos == i && mi[vr[j]].nRandomPos == j;
      }
    }
    forall id: Id
      ensures multiset(vr)[id] == multiset(mi.Keys)[id]
    {
      DistinctMultiset(vr, id);
    }
    assert multiset(vr) == multiset(mi.Keys);
    assert |multiset(vr)| == |vr| && |multiset(mi.Keys)| == |mi.Keys|;
  }

  lemma {:induction false} NewContentsCount(vn: seq<set<Id>>, n: nat, id: Id)
    requires n <= |vn|
    ensures NewContents(vn, n)[id] == |set b: nat | b < n && id in vn[b]|
  {
    if n > 0 {
      NewContentsCount(vn, n - 1, id);
      var front := set b: nat | b < n - 1 && id in vn[b];
      assert (set b: nat | b < n && id in vn[b]) == front + if id in vn[n - 1] then {n - 1} else {};
    }
  }

  lemma NewOkMatches(mi: InfoMap, vn: seq<set<Id>>)
    requires NewOk(mi, vn, -1)
    ensures NewBucketsMatch(mi, vn)
  {
    forall id: Id
      ensures NewContents(vn, |vn|)[id] == References(mi, id)
    {
      NewContentsCount(vn, |vn|, id);
      assert (set b: nat | b < |vn| && id in vn[b]) == BucketsOf(vn, id);
      if id in mi {
        assert CountOk(mi[id]);
      } else {
        assert BucketsOf(vn, id) == {};
      }
    }
  }

  /** Up to bucket n, each tried entry whose bucket was passed occurs once. */
  lemma {:induction false} TriedContentsCount(mi: InfoMap, vt: seq<seq<Id>>, h: TriedHash, n: nat, id: Id)
    requires TriedOk(mi, vt, h) && n <= |vt|
    ensures TriedContents(vt, n)[id] == if id in TriedIds(mi) && h(mi[id].addr) < n then 1 else 0
  {
    if n > 0 {
      TriedContentsCount(mi, vt, h, n - 1, id);
      DistinctMultiset(vt[n - 1], id);
      assert id in vt[n - 1] ==> TriedEntry(mi, h, n - 1, id);
    }
  }

  lemma TriedOkMatches(mi: InfoMap, vt: seq<seq<Id>>, h: TriedHash)
    requires TriedOk(mi, vt, h)
    ensures TriedContents(vt, |vt|) == multiset(TriedIds(mi))
  {
    forall id: Id
      ensures TriedContents(vt, |vt|)[id] == multiset(TriedIds(mi))[id]
    {
      TriedContentsCount(mi, vt, h, |vt|, id);
    }
  }

  lemma ConsistentPasses(mi: InfoMap, ma: map<NetAddr, Id>, vr: seq<Id>, vt: seq<seq<Id>>, vn: seq<set<Id>>,
      nTried: int, nNew: int, nIdCount: nat, h: TriedHash)
    requires Consistent(mi, ma, vr, vt, vn, nTried, nNew, nIdCount, h, -1)
    ensures Passes(mi, ma, vr, vt, vn, nTried, nNew)
  {
    NewOkMatches(mi, vn);
    TriedOkMatches(mi, vt, h);
    RandomSize(mi, vr);
    IdsSplit(mi);
    forall id | id in mi
      ensures EntryPasses(mi, ma, vr, id)
    {
      assert CountOk(mi[id]);
    }
  }

  lemma IdsSplit(mi: InfoMap)
    ensures |mi.Keys| == |TriedIds(mi)| + |NewIds(mi)|
  {
    assert mi.Keys == TriedIds(mi) + NewIds(mi);
    assert TriedIds(mi) !! NewIds(mi);
  }
}
