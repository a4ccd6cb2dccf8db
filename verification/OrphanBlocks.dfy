/**
 * The holding area for blocks whose parent is not known yet (src/main.cpp:1382-1430) and its release when a block
 * is accepted (src/main.cpp:3170-3275).
 */
module OrphanBlocks {
  import opened Common

  type Hash = nat

  type Stake = nat

  /** A block as far as it matters here; proof-of-work blocks have no stake. */
  datatype Orphan = Orphan(hashBlock: Hash, hashPrev: Hash, stake: Option<Stake>)

  /**
   * What the checks outside this model make of a block whose parent is known: it fails before it enters the index, it
   * enters the index and SetBestChain refuses it, or it is accepted.
   */
  datatype Outcome = Rejected | Refused | Accepted

  type Outcomes = Hash -> Outcome

  // ---------- the multimap by parent, as a list of its entries ----------

  function Children(entries: seq<Orphan>, hash: Hash): seq<Orphan> {
    if entries == [] then []
    else (if entries[0].hashPrev == hash then [entries[0]] else []) + Children(entries[1..], hash)
  }

  function Others(entries: seq<Orphan>, hash: Hash): seq<Orphan> {
    if entries == [] then []
    else (if entries[0].hashPrev != hash then [entries[0]] else []) + Others(entries[1..], hash)
  }

  ghost predicate Distinct(entries: seq<Orphan>) {
    forall j, k :: 0 <= j < k < |entries| ==> entries[j].hashBlock != entries[k].hashBlock
  }

  lemma {:induction false} SplitByParent(entries: seq<Orphan>, hash: Hash)
    ensures forall o :: o in Children(entries, hash) <==> o in entries && o.hashPrev == hash
    ensures forall o :: o in Others(entries, hash) <==> o in entries && o.hashPrev != hash
    ensures |Children(entries, hash)| + |Others(entries, hash)| == |entries|
  {
    if entries != [] {
      SplitByParent(entries[1..], hash);
      assert entries == [entries[0]] + entries[1..];
    }
  }

  lemma DistinctCons(o: Orphan, rest: seq<Orphan>)
    requires Distinct(rest) && forall x <- rest :: x.hashBlock != o.hashBlock
    ensures Distinct([o] + rest)
  {
  }

  lemma DistinctTail(entries: seq<Orphan>)
    requires Distinct(entries) && entries != []
    ensures Distinct(entries[1..]) && forall x <- entries[1..] :: x.hashBlock != entries[0].hashBlock
  {
  }

  lemma {:induction false} SplitDistinct(entries: seq<Orphan>, hash: Hash)
    requires Distinct(entries)
    ensures Distinct(Children(entries, hash)) && Distinct(Others(entries, hash))
  {
    hide Distinct;
    if entries == [] {
      assert Children(entries, hash) == entries == Others(entries, hash);
    } else {
      var o, rest := entries[0], entries[1..];
      DistinctTail(entries);
      SplitDistinct(rest, hash);
      SplitByParent(rest, hash);
      if o.hashPrev == hash {
        DistinctCons(o, Children(rest, hash));
        assert Others(entries, hash) == Others(rest, hash);
      } else {
        DistinctCons(o, Others(rest, hash));
        assert Children(entries, hash) == Children(rest, hash);
      }
    }
  }

  /** Both indexes hold the same orphans, each once. */
  ghost predicate Mirrored(byHash: map<Hash, Orphan>, byPrev: seq<Orphan>) {
    && Distinct(byPrev)
    && (forall o <- byPrev :: o.hashBlock in byHash && byHash[o.hashBlock] == o)
    && (forall h :: h in byHash ==> byHash[h] in byPrev && byHash[h].hashBlock == h)
  }

  /** A block comes after the one it names as its parent: hash links cannot form a cycle. */
  ghost predicate Acyclic(rank: Hash -> nat, byHash: map<Hash, Orphan>) {
    forall h :: h in byHash ==> rank(byHash[h].hashPrev) < rank(h)
  }

  /** The first block of the chain of held orphans that h ends; h itself when it is not held. */
  ghost function Root(rank: Hash -> nat, byHash: map<Hash, Orphan>, h: Hash): (r: Hash)
    requires Acyclic(rank, byHash)
    ensures h in byHash ==> r in byHash && byHash[r].hashPrev !in byHash
    ensures h !in byHash ==> r == h
    decreases rank(h)
  {
    if h !in byHash || byHash[h].hashPrev !in byHash then h else Root(rank, byHash, byHash[h].hashPrev)
  }

  function Without(entries: seq<Orphan>, at: nat): seq<Orphan>
    requires at < |entries|
  {
    entries[..at] + entries[at + 1..]
  }

  lemma WithoutOne(byHash: map<Hash, Orphan>, byPrev: seq<Orphan>, at: nat)
    requires Mirrored(byHash, byPrev) && at < |byPrev|
    ensures Mirrored(byHash - {byPrev[at].hashBlock}, Without(byPrev, at))
    ensures forall o :: o in Without(byPrev, at) <==> o in byPrev && o != byPrev[at]
  {
    var rest := Without(byPrev, at);
    assert forall k :: 0 <= k < |rest| ==> rest[k] == byPrev[if k < at then k else k + 1];
    forall o | o in byPrev && o != byPrev[at]
      ensures o in rest
    {
      var k :| 0 <= k < |byPrev| && byPrev[k] == o;
      assert rest[if k < at then k else k - 1] == o;
    }
    forall o | o in rest
      ensures o in byPrev && o != byPrev[at]
    {
      var k :| 0 <= k < |rest| && rest[k] == o;
    }
  }

  ghost predicate HoldsStake(entries: seq<Orphan>, s: Stake) {
    exists o :: o in entries && o.stake == Some(s)
  }

  /** Forgetting an orphan's stake leaves only stakes of other orphans. */
  lemma StakeForgotten(entries: seq<Orphan>, gone: Orphan, s: Stake, rest: seq<Orphan>)
    requires HoldsStake(entries, s) && gone.stake != Some(s)
    requires forall o :: o in entries && o != gone ==> o in rest
    ensures HoldsStake(rest, s)
  {
    var o :| o in entries && o.stake == Some(s);
    assert o in rest;
  }

  function Forget(seen: set<Stake>, stake: Option<Stake>): set<Stake> {
    if stake.Some? then seen - {stake.value} else seen
  }

  class OrphanPool {
    /** The keys of mapBlockIndex. */
    var mapBlockIndex: set<Hash>
    var setStakeSeen: set<Stake>
    var mapOrphanBlocks: map<Hash, Orphan>
    var mapOrphanBlocksByPrev: seq<Orphan>
    var setStakeSeenOrphan: set<Stake>
    const nMaxOrphans: nat
    ghost const rank: Hash -> nat

    /** The blocks that entered the index although AcceptBlock failed: SetBestChain refused them. */
    ghost var refused: set<Hash>

    ghost predicate Bounded()
      reads this
    {
      |mapOrphanBlocksByPrev| <= nMaxOrphans + 1
    }

    ghost predicate StakesHeld()
      reads this
    {
      forall s :: s in setStakeSeenOrphan ==> HoldsStake(mapOrphanBlocksByPrev, s)
    }

    /** An orphan's parent is unknown, unless the chain refused it. */
    ghost predicate ParentsUnknown()
      reads this
    {
      && refused <= mapBlockIndex
      && forall o <- mapOrphanBlocksByPrev :: o.hashPrev in mapBlockIndex ==> o.hashPrev in refused
    }

    ghost predicate Valid()
      reads this
    {
      && Mirrored(mapOrphanBlocks, mapOrphanBlocksByPrev) && Acyclic(rank, mapOrphanBlocks)
      && Bounded() && StakesHeld() && ParentsUnknown()
      && mapOrphanBlocks.Keys !! mapBlockIndex
    }

    constructor (hashGenesis: Hash, nMaxOrphans: int, ghost rank: Hash -> nat)
      ensures Valid() && mapBlockIndex == {hashGenesis} && mapOrphanBlocks == map[] && mapOrphanBlocksByPrev == []
      ensures setStakeSeen == {} && setStakeSeenOrphan == {}
      ensures this.nMaxOrphans == (if nMaxOrphans > 0 then nMaxOrphans else 0) && this.rank == rank
    {
      mapBlockIndex, setStakeSeen := {hashGenesis}, {};
      mapOrphanBlocks, mapOrphanBlocksByPrev, setStakeSeenOrphan := map[], [], {};
      this.nMaxOrphans := if nMaxOrphans > 0 then nMaxOrphans else 0;
      this.rank := rank;
      refused := {};
    }

    method GetOrphanRoot(hash: Hash) returns (r: Hash)
      requires Acyclic(rank, mapOrphanBlocks)
      ensures r == Root(rank, mapOrphanBlocks, hash)
    {
      if hash !in mapOrphanBlocks {
        return hash;
      }
      r := hash;
      while mapOrphanBlocks[r].hashPrev in mapOrphanBlocks
        invariant r in mapOrphanBlocks
        invariant Root(rank, mapOrphanBlocks, r) == Root(rank, mapOrphanBlocks, hash)
        decreases rank(r)
      {
        r := mapOrphanBlocks[r].hashPrev;
      }
    }

    method WantedByOrphan(o: Orphan) returns (r: Hash)
      requires Acyclic(rank, mapOrphanBlocks)
      requires o in mapOrphanBlocksByPrev && Mirrored(mapOrphanBlocks, mapOrphanBlocksByPrev)
      ensures r == mapOrphanBlocks[Root(rank, mapOrphanBlocks, o.hashBlock)].hashPrev
      ensures r !in mapOrphanBlocks
    {
      var it := o;
      while it.hashPrev in mapOrphanBlocks
        invariant it.hashBlock in mapOrphanBlocks && mapOrphanBlocks[it.hashBlock] == it
        invariant Root(rank, mapOrphanBlocks, it.hashBlock) == Root(rank, mapOrphanBlocks, o.hashBlock)
        decreases rank(it.hashBlock)
      {
        it := mapOrphanBlocks[it.hashPrev];
      }
      r := it.hashPrev;
    }

    /** The walk's measure: the held blocks that could still come after h. */
    ghost function Later(h: Hash): set<Hash>
      reads this
    {
      set x | x in mapOrphanBlocks && rank(x) > rank(h)
    }

    /** Any entry with the given parent; which one the multimap returns is left open. */
    method FindByPrev(hash: Hash) returns (found: bool, at: nat)
      ensures found <==> exists o <- mapOrphanBlocksByPrev :: o.hashPrev == hash
      ensures found ==> at < |mapOrphanBlocksByPrev| && mapOrphanBlocksByPrev[at].hashPrev == hash
    {
      for i := 0 to |mapOrphanBlocksByPrev|
        invariant forall k :: 0 <= k < i ==> mapOrphanBlocksByPrev[k].hashPrev != hash
      {
        if mapOrphanBlocksByPrev[i].hashPrev == hash {
          return true, i;
        }
      }
      return false, 0;
    }

    lemma LaterShrinks(a: Orphan, b: Orphan)
      requires Mirrored(mapOrphanBlocks, mapOrphanBlocksByPrev) && Acyclic(rank, mapOrphanBlocks)
      requires b in mapOrphanBlocksByPrev && b.hashPrev == a.hashBlock
      ensures |Later(b.hashBlock)| < |Later(a.hashBlock)|
    {
      var l, m := Later(a.hashBlock), Later(b.hashBlock);
      assert b.hashBlock in l && b.hashBlock !in m;
      assert m <= l - {b.hashBlock};
      SubsetSize(m, l - {b.hashBlock});
    }

    /** The walk from a random orphan to one that no other orphan depends on. */
    method PickChildless() returns (at: nat)
      requires Mirrored(mapOrphanBlocks, mapOrphanBlocksByPrev) && Acyclic(rank, mapOrphanBlocks)
      requires mapOrphanBlocksByPrev != []
      ensures at < |mapOrphanBlocksByPrev|
      ensures forall o <- mapOrphanBlocksByPrev :: o.hashPrev != mapOrphanBlocksByPrev[at].hashBlock
    {
      hide Mirrored, Acyclic;
      at :| at < |mapOrphanBlocksByPrev|;
      var more := true;
      while more
        invariant at < |mapOrphanBlocksByPrev|
        invariant !more ==> forall o <- mapOrphanBlocksByPrev :: o.hashPrev != mapOrphanBlocksByPrev[at].hashBlock
        decreases |Later(mapOrphanBlocksByPrev[at].hashBlock)|, more
      {
        var it2;
        more, it2 := FindByPrev(mapOrphanBlocksByPrev[at].hashBlock);
        if more {
          LaterShrinks(mapOrphanBlocksByPrev[at], mapOrphanBlocksByPrev[it2]);
          at := it2;
        }
      }
    }

    /** One orphan at most goes, and none that another orphan depends on. */
    method PruneOrphanBlocks() returns (ghost gone: Option<Orphan>)
      requires Valid()
      modifies this`mapOrphanBlocks, this`mapOrphanBlocksByPrev, this`setStakeSeenOrphan
      ensures Valid() && |mapOrphanBlocksByPrev| <= nMaxOrphans
      ensures gone.Some? <==> |old(mapOrphanBlocksByPrev)| > nMaxOrphans
      ensures gone.None? ==> mapOrphanBlocksByPrev == old(mapOrphanBlocksByPrev) && mapOrphanBlocks == old(mapOrphanBlocks)
      ensures gone.Some? ==>
        && gone.value in old(mapOrphanBlocksByPrev)
        && (forall o <- old(mapOrphanBlocksByPrev) :: o.hashPrev != gone.value.hashBlock)
        && (forall o :: o in mapOrphanBlocksByPrev <==> o in old(mapOrphanBlocksByPrev) && o != gone.value)
        && |mapOrphanBlocksByPrev| == |old(mapOrphanBlocksByPrev)| - 1
        && mapOrphanBlocks == old(mapOrphanBlocks) - {gone.value.hashBlock}
      ensures setStakeSeenOrphan ==
              if gone.Some? then Forget(old(setStakeSeenOrphan), gone.value.stake) else old(setStakeSeenOrphan)
    {
      hide Mirrored, HoldsStake;
      gone := None;
      if |mapOrphanBlocksByPrev| <= nMaxOrphans {
        return;
      }
      var at := PickChildless();
      var it := mapOrphanBlocksByPrev[at];
      gone := Some(it);
      WithoutOne(mapOrphanBlocks, mapOrphanBlocksByPrev, at);
      forall s | s in Forget(setStakeSeenOrphan, it.stake)
        ensures HoldsStake(Without(mapOrphanBlocksByPrev, at), s)
      {
        StakeForgotten(mapOrphanBlocksByPrev, it, s, Without(mapOrphanBlocksByPrev, at));
      }
      setStakeSeenOrphan := Forget(setStakeSeenOrphan, it.stake);
      mapOrphanBlocksByPrev := Without(mapOrphanBlocksByPrev, at);
      mapOrphanBlocks := mapOrphanBlocks - {it.hashBlock};
    }

    /**
     * The parent must be known, which every call below establishes. A block can also fail after it has entered the
     * index.
     */
    method AcceptBlock(b: Orphan, outcome: Outcome) returns (ok: bool)
      requires b.hashPrev in mapBlockIndex
      modifies this`mapBlockIndex, this`setStakeSeen, this`refused
      ensures ok <==> b.hashBlock !in old(mapBlockIndex) && outcome.Accepted?
      ensures mapBlockIndex == old(mapBlockIndex) + if outcome.Rejected? then {} else {b.hashBlock}
      ensures refused ==
              old(refused) + if b.hashBlock !in old(mapBlockIndex) && outcome.Refused? then {b.hashBlock} else {}
      ensures setStakeSeen == old(setStakeSeen) +
        if b.hashBlock !in old(mapBlockIndex) && !outcome.Rejected? && b.stake.Some? then {b.stake.value} else {}
    {
      if b.hashBlock in mapBlockIndex {
        return false;
      }
      if outcome.Rejected? {
        return false;
      }
      mapBlockIndex := mapBlockIndex + {b.hashBlock};
      if b.stake.Some? {
        setStakeSeen := setStakeSeen + {b.stake.value};
      }
      ok := outcome.Accepted?;
      if !ok {
        refused := refused + {b.hashBlock};
      }
    }

    /** The inner loop of the release: the children of one block, each tried once and forgotten. */
    method TryChildren(children: seq<Orphan>, vWorkQueue0: seq<Hash>, outcomes: Outcomes)
      returns (vWorkQueue: seq<Hash>, ghost accepted: seq<Hash>)
      requires Distinct(children) && refused <= mapBlockIndex
      requires forall c <- children :: c.hashPrev in mapBlockIndex && c.hashBlock !in mapBlockIndex
      modifies this`mapBlockIndex, this`setStakeSeen, this`refused, this`mapOrphanBlocks, this`setStakeSeenOrphan
      ensures vWorkQueue == vWorkQueue0 + accepted && DistinctHashes(accepted) && |accepted| <= |children|
      ensures mapOrphanBlocks == old(mapOrphanBlocks) - HashSet(children)
      ensures setStakeSeenOrphan == old(setStakeSeenOrphan) - StakeSet(children)
      ensures old(refused) <= refused && old(mapBlockIndex) <= mapBlockIndex
      ensures refused - old(refused) <= mapBlockIndex - old(mapBlockIndex)
      ensures mapBlockIndex - old(mapBlockIndex) <= HashSet(children) && refused <= mapBlockIndex
      ensures forall h :: h in accepted <==> h in mapBlockIndex - old(mapBlockIndex) && h !in refused
      // what becomes of each child is the outcome of accepting it
      ensures accepted == AcceptedOf(children, outcomes)
      ensures mapBlockIndex == old(mapBlockIndex) + IndexedOf(children, outcomes)
      ensures refused == old(refused) + RefusedOf(children, outcomes)
    {
      hide Distinct, DistinctHashes, HashSet, StakeSet, AcceptedOf, IndexedOf, RefusedOf;
      vWorkQueue, accepted := vWorkQueue0, [];
      assert children[..0] == [];
      NoChildren(outcomes);
      for i := 0 to |children|
        invariant vWorkQueue == vWorkQueue0 + accepted && accepted == AcceptedOf(children[..i], outcomes)
        invariant mapOrphanBlocks == old(mapOrphanBlocks) - HashSet(children[..i])
        invariant setStakeSeenOrphan == old(setStakeSeenOrphan) - StakeSet(children[..i])
        invariant mapBlockIndex == old(mapBlockIndex) + IndexedOf(children[..i], outcomes)
        invariant refused == old(refused) + RefusedOf(children[..i], outcomes)
      {
        var c := children[i];
        assert c in children;
        NextChild(children, i);
        NextOutcome(children, i, outcomes);
        NotIndexedYet(children, i, outcomes);
        var ok := AcceptBlock(c, outcomes(c.hashBlock));
        if ok {
          vWorkQueue := vWorkQueue + [c.hashBlock];
          accepted := accepted + [c.hashBlock];
        }
        mapOrphanBlocks := mapOrphanBlocks - {c.hashBlock};
        setStakeSeenOrphan := Forget(setStakeSeenOrphan, c.stake);
      }
      assert children[..|children|] == children;
      OutcomeFacts(children, outcomes, old(mapBlockIndex), old(refused));
    }

    /** The indexes agree, and an orphan whose parent is known waits only for a parent in `pending` or a refused one. */
    ghost predicate Open(pending: set<Hash>)
      reads this
    {
      && Mirrored(mapOrphanBlocks, mapOrphanBlocksByPrev) && Acyclic(rank, mapOrphanBlocks)
      && StakesHeld() && mapOrphanBlocks.Keys !! mapBlockIndex && refused <= mapBlockIndex
      && forall o <- mapOrphanBlocksByPrev :: o.hashPrev in mapBlockIndex ==> o.hashPrev in refused || o.hashPrev in pending
    }

    /** One block of the work queue: its children are tried and leave both indexes. */
    method ReleaseChildren(hashPrev: Hash, vWorkQueue0: seq<Hash>, outcomes: Outcomes, ghost pending: set<Hash>)
      returns (vWorkQueue: seq<Hash>, ghost accepted: seq<Hash>)
      requires Open(pending) && hashPrev in mapBlockIndex
      modifies this`mapBlockIndex, this`setStakeSeen, this`refused
      modifies this`mapOrphanBlocks, this`mapOrphanBlocksByPrev, this`setStakeSeenOrphan
      ensures Open(pending - {hashPrev} + set h | h in accepted)
      ensures mapOrphanBlocksByPrev == Others(old(mapOrphanBlocksByPrev), hashPrev)
      ensures vWorkQueue == vWorkQueue0 + accepted && DistinctHashes(accepted)
      ensures |accepted| <= |Children(old(mapOrphanBlocksByPrev), hashPrev)|
      ensures old(refused) <= refused && old(mapBlockIndex) <= mapBlockIndex
      ensures refused - old(refused) <= mapBlockIndex - old(mapBlockIndex)
      ensures mapBlockIndex - old(mapBlockIndex) <= HashSet(Children(old(mapOrphanBlocksByPrev), hashPrev))
      ensures forall h :: h in accepted <==> h in mapBlockIndex - old(mapBlockIndex) && h !in refused
      ensures accepted == AcceptedOf(Children(old(mapOrphanBlocksByPrev), hashPrev), outcomes)
      ensures mapBlockIndex == old(mapBlockIndex) + IndexedOf(Children(old(mapOrphanBlocksByPrev), hashPrev), outcomes)
      ensures refused == old(refused) + RefusedOf(Children(old(mapOrphanBlocksByPrev), hashPrev), outcomes)
    {
      hide Distinct, HoldsStake, AcceptedOf, IndexedOf, RefusedOf;
      var children := Children(mapOrphanBlocksByPrev, hashPrev);
      SplitByParent(mapOrphanBlocksByPrev, hashPrev);
      SplitDistinct(mapOrphanBlocksByPrev, hashPrev);
      SplitMirrored(mapOrphanBlocks, mapOrphanBlocksByPrev, hashPrev);
      vWorkQueue, accepted := TryChildren(children, vWorkQueue0, outcomes);
      mapOrphanBlocksByPrev := Others(mapOrphanBlocksByPrev, hashPrev);
      forall s | s in setStakeSeenOrphan
        ensures HoldsStake(mapOrphanBlocksByPrev, s)
      {
        StakesForgotten(old(mapOrphanBlocksByPrev), hashPrev, s);
      }
    }

    /**
     * The work queue: every orphan whose parent is accepted is tried exactly once, after its parent, and no child of an
     * accepted block is left behind.
     */
    method ReleaseOrphans(hash: Hash, outcomes: Outcomes) returns (vWorkQueue: seq<Hash>, ghost tried: seq<Orphan>)
      requires Open({hash}) && hash in mapBlockIndex && hash !in refused
      modifies this`mapBlockIndex, this`setStakeSeen, this`refused
      modifies this`mapOrphanBlocks, this`mapOrphanBlocksByPrev, this`setStakeSeenOrphan
      ensures Open({}) && |mapOrphanBlocksByPrev| <= |old(mapOrphanBlocksByPrev)|
      ensures Progress(old(mapOrphanBlocksByPrev), hash, vWorkQueue, tried, |vWorkQueue|,
                       mapOrphanBlocksByPrev, mapBlockIndex, refused)
      ensures AsOutcomes(outcomes, hash, vWorkQueue, tried, old(mapBlockIndex), mapBlockIndex, old(refused), refused)
      ensures old(mapBlockIndex) <= mapBlockIndex && old(refused) <= refused
    {
      hide Distinct, Children, Others, DistinctHashes, HashSet, Mirrored, StakesHeld, HoldsStake, Acyclic, Progress,
        AsOutcomes, AcceptedOf, IndexedOf, RefusedOf;
      ghost var entries := mapOrphanBlocksByPrev;
      MirroredEntries(mapOrphanBlocks, entries);
      vWorkQueue, tried := [hash], [];
      StartProgress(entries, hash, mapBlockIndex, refused);
      StartOutcomes(outcomes, hash, mapBlockIndex, refused);
      var i := 0;
      while i < |vWorkQueue|
        invariant 0 <= i <= |vWorkQueue|
        invariant Progress(entries, hash, vWorkQueue, tried, i, mapOrphanBlocksByPrev, mapBlockIndex, refused)
        invariant AsOutcomes(outcomes, hash, vWorkQueue, tried, old(mapBlockIndex), mapBlockIndex, old(refused), refused)
        invariant Open(SetOf(vWorkQueue[i..]))
        invariant old(mapBlockIndex) <= mapBlockIndex && old(refused) <= refused
        decreases 1 + |entries| - i
      {
        ProgressBounds(entries, hash, vWorkQueue, tried, i, mapOrphanBlocksByPrev, mapBlockIndex, refused);
        var hashPrev := vWorkQueue[i];
        ghost var accepted;
        ghost var queue, before, triedBefore := vWorkQueue, mapOrphanBlocksByPrev, tried;
        MirroredEntries(mapOrphanBlocks, before);
        ghost var index, refusedBefore := mapBlockIndex, refused;
        vWorkQueue, accepted := ReleaseChildren(hashPrev, vWorkQueue, outcomes, SetOf(vWorkQueue[i..]));
        tried := tried + Children(before, hashPrev);
        PendingStep(queue, accepted, i);
        ProgressStep(entries, hash, queue, triedBefore, i, before, index, refusedBefore, accepted, mapBlockIndex, refused);
        OutcomesStep(outcomes, hash, queue, triedBefore, old(mapBlockIndex), index, old(refused), refusedBefore,
                     Children(before, hashPrev));
        i := i + 1;
      }
      ProgressBounds(entries, hash, vWorkQueue, tried, i, mapOrphanBlocksByPrev, mapBlockIndex, refused);
      assert SetOf(vWorkQueue[i..]) == {};
      assert vWorkQueue[..|vWorkQueue|] == vWorkQueue;
    }

    /** A stake that was seen before, on a block that no orphan waits for. */
    ghost predicate SeenAgain(b: Orphan, seen: set<Stake>)
      reads this
    {
      b.stake.Some? && b.stake.value in seen && forall o <- mapOrphanBlocksByPrev :: o.hashPrev != b.hashBlock
    }

    /** The block is new, its stake is not used again, and it passes the preliminary checks. */
    ghost predicate Admitted(b: Orphan, fLoading: bool, checks: bool)
      reads this
    {
      && b.hashBlock !in mapBlockIndex && b.hashBlock !in mapOrphanBlocks
      && (fLoading || !SeenAgain(b, setStakeSeen)) && checks
    }

    /** The block, if it enters the index and is refused. */
    ghost function RefusedNow(b: Orphan, fLoading: bool, checks: bool, outcomes: Outcomes): set<Hash>
      reads this
    {
      if Admitted(b, fLoading, checks) && b.hashPrev in mapBlockIndex && outcomes(b.hashBlock).Refused? then
        {b.hashBlock}
      else {}
    }

    /**
     * A block from a peer or from disk. `checks` is the outcome of the preliminary checks, and `outcomes` that of
     * accepting it or an orphan behind it.
     */
    method ProcessBlock(b: Orphan, fFromPeer: bool, fLoading: bool, checks: bool, outcomes: Outcomes)
      returns (ok: bool, wanted: Option<Hash>, ghost vWorkQueue: seq<Hash>, ghost tried: seq<Orphan>)
      requires Valid() && rank(b.hashPrev) < rank(b.hashBlock)
      modifies this`mapBlockIndex, this`setStakeSeen, this`refused
      modifies this`mapOrphanBlocks, this`mapOrphanBlocksByPrev, this`setStakeSeenOrphan
      ensures Valid() && old(mapBlockIndex) <= mapBlockIndex
      ensures ok <==>
        && old(Admitted(b, fLoading, checks))
        && (b.hashPrev in old(mapBlockIndex) ==> outcomes(b.hashBlock).Accepted?)
        && (b.hashPrev !in old(mapBlockIndex) && fFromPeer ==> !old(SeenAgain(b, setStakeSeenOrphan)))
      ensures !ok ==> mapOrphanBlocks == old(mapOrphanBlocks) && mapOrphanBlocksByPrev == old(mapOrphanBlocksByPrev)
      // a block that is refused stays in the index, and what waits for it stays held
      ensures !ok ==> mapBlockIndex == old(mapBlockIndex) + old(RefusedNow(b, fLoading, checks, outcomes))
      ensures b.hashPrev !in old(mapBlockIndex) ==> mapBlockIndex == old(mapBlockIndex)
      // an orphan is held, and what is asked for is neither held nor known, unless it was refused
      ensures ok && b.hashPrev !in old(mapBlockIndex) && fFromPeer ==>
        && b.hashBlock in mapOrphanBlocks && mapOrphanBlocks[b.hashBlock] == b
        && (|old(mapOrphanBlocksByPrev)| <= nMaxOrphans ==>
              && mapOrphanBlocks == old(mapOrphanBlocks)[b.hashBlock := b]
              && mapOrphanBlocksByPrev == old(mapOrphanBlocksByPrev) + [b])
        && (b.stake.Some? ==> b.stake.value in setStakeSeenOrphan)
        && wanted.Some? && wanted.value !in mapOrphanBlocks
        && (wanted.value in mapBlockIndex ==> wanted.value in refused)
      ensures ok && b.hashPrev !in old(mapBlockIndex) && !fFromPeer ==> mapOrphanBlocks == old(mapOrphanBlocks)
      // an accepted block releases the orphans that waited for it, directly or through other orphans
      ensures ok && b.hashPrev in old(mapBlockIndex) ==>
        && b.hashBlock in mapBlockIndex
        && Progress(old(mapOrphanBlocksByPrev), b.hashBlock, vWorkQueue, tried, |vWorkQueue|,
                    mapOrphanBlocksByPrev, mapBlockIndex, refused)
        && AsOutcomes(outcomes, b.hashBlock, vWorkQueue, tried, old(mapBlockIndex) + {b.hashBlock}, mapBlockIndex,
                      old(refused), refused)
      // exactly the blocks behind b whose whole way from b is accepted are queued, and they are in the index
      ensures ok && b.hashPrev in old(mapBlockIndex) ==>
        && (forall h :: h in vWorkQueue <==> Reached(old(mapOrphanBlocksByPrev), outcomes, b.hashBlock, h))
        && (forall h <- vWorkQueue :: h in mapBlockIndex && h !in refused)
        && (forall o :: o in tried <==> o in old(mapOrphanBlocksByPrev)
                                        && Reached(old(mapOrphanBlocksByPrev), outcomes, b.hashBlock, o.hashPrev))
        && (forall o <- tried :: (o.hashBlock in mapBlockIndex <==> !outcomes(o.hashBlock).Rejected?)
                                 && (o.hashBlock in refused <==> outcomes(o.hashBlock).Refused?))
    {
      hide Distinct, HoldsStake, Progress, Root, AsOutcomes, Reached, Mirrored;
      ghost var held := mapOrphanBlocksByPrev;
      MirroredKeys(mapOrphanBlocks, held);
      MirroredEntries(mapOrphanBlocks, held);
      ok, wanted, vWorkQueue, tried := false, None, [], [];
      if b.hashBlock in mapBlockIndex || b.hashBlock in mapOrphanBlocks {
        return;
      }
      var fHasChild, _ := FindByPrev(b.hashBlock);
      if !fLoading && b.stake.Some? && b.stake.value in setStakeSeen && !fHasChild {
        return;
      }
      if !checks {
        return;
      }
      if b.hashPrev !in mapBlockIndex {
        if fFromPeer {
          if b.stake.Some? && b.stake.value in setStakeSeenOrphan && !fHasChild {
            return;
          }
          wanted := HoldOrphan(b);
        }
        ok := true;
        return;
      }
      var accepted := AcceptBlock(b, outcomes(b.hashBlock));
      if !accepted {
        return;
      }
      ghost var index0, refused0 := mapBlockIndex, refused;
      assert index0 == old(mapBlockIndex) + {b.hashBlock} && refused0 == old(refused);
      vWorkQueue, tried := ReleaseOrphans(b.hashBlock, outcomes);
      ReleasedIffReached(outcomes, held, b.hashBlock, vWorkQueue, tried, mapOrphanBlocksByPrev, index0, mapBlockIndex,
                         refused0, refused);
      ok := true;
    }

    /** A new orphan enters both indexes, after pruning has made room for it. */
    method HoldOrphan(b: Orphan) returns (wanted: Option<Hash>)
      requires Valid() && rank(b.hashPrev) < rank(b.hashBlock)
      requires b.hashBlock !in mapBlockIndex && b.hashBlock !in mapOrphanBlocks && b.hashPrev !in mapBlockIndex
      modifies this`mapOrphanBlocks, this`mapOrphanBlocksByPrev, this`setStakeSeenOrphan
      ensures Valid()
      ensures b.hashBlock in mapOrphanBlocks && mapOrphanBlocks[b.hashBlock] == b
      ensures |old(mapOrphanBlocksByPrev)| <= nMaxOrphans ==>
        && mapOrphanBlocks == old(mapOrphanBlocks)[b.hashBlock := b]
        && mapOrphanBlocksByPrev == old(mapOrphanBlocksByPrev) + [b]
      ensures b.stake.Some? ==> b.stake.value in setStakeSeenOrphan
      ensures |old(mapOrphanBlocksByPrev)| <= nMaxOrphans ==>
        setStakeSeenOrphan == old(setStakeSeenOrphan) + if b.stake.Some? then {b.stake.value} else {}
      ensures wanted.Some? && wanted.value !in mapOrphanBlocks
      ensures wanted.value in mapBlockIndex ==> wanted.value in refused
    {
      hide Root, Mirrored, Acyclic;
      var _ := PruneOrphanBlocks();
      MirroredKeys(mapOrphanBlocks, mapOrphanBlocksByPrev);
      Insert(b);
      RootHeld(mapOrphanBlocks, mapOrphanBlocksByPrev, rank, b.hashBlock);
      var hashWanted := WantedByOrphan(b);
      wanted := Some(hashWanted);
    }

    method Insert(b: Orphan)
      requires Valid() && |mapOrphanBlocksByPrev| <= nMaxOrphans && rank(b.hashPrev) < rank(b.hashBlock)
      requires b.hashBlock !in mapBlockIndex && b.hashBlock !in mapOrphanBlocks && b.hashPrev !in mapBlockIndex
      modifies this`mapOrphanBlocks, this`mapOrphanBlocksByPrev, this`setStakeSeenOrphan
      ensures Valid()
      ensures mapOrphanBlocks == old(mapOrphanBlocks)[b.hashBlock := b]
      ensures mapOrphanBlocksByPrev == old(mapOrphanBlocksByPrev) + [b]
      ensures setStakeSeenOrphan == old(setStakeSeenOrphan) + if b.stake.Some? then {b.stake.value} else {}
    {
      hide HoldsStake, Mirrored;
      OneMore(mapOrphanBlocks, mapOrphanBlocksByPrev, b);
      forall s | s in setStakeSeenOrphan || Some(s) == b.stake
        ensures HoldsStake(mapOrphanBlocksByPrev + [b], s)
      {
        StakeHeld(mapOrphanBlocksByPrev, b, s);
      }
      mapOrphanBlocks := mapOrphanBlocks[b.hashBlock := b];
      mapOrphanBlocksByPrev := mapOrphanBlocksByPrev + [b];
      if b.stake.Some? {
        setStakeSeenOrphan := setStakeSeenOrphan + {b.stake.value};
      }
    }
  }

  lemma MirroredKeys(byHash: map<Hash, Orphan>, byPrev: seq<Orphan>)
    requires Mirrored(byHash, byPrev)
    ensures forall o <- byPrev :: o.hashBlock in byHash && byHash[o.hashBlock] == o
    ensures forall h :: h in byHash ==> byHash[h] in byPrev && byHash[h].hashBlock == h
  {
  }

  lemma OneMore(byHash: map<Hash, Orphan>, byPrev: seq<Orphan>, b: Orphan)
    requires Mirrored(byHash, byPrev) && b.hashBlock !in byHash
    ensures Mirrored(byHash[b.hashBlock := b], byPrev + [b])
  {
  }

  lemma StakeHeld(entries: seq<Orphan>, b: Orphan, s: Stake)
    requires HoldsStake(entries, s) || b.stake == Some(s)
    ensures HoldsStake(entries + [b], s)
  {
    if HoldsStake(entries, s) {
      var o :| o in entries && o.stake == Some(s);
      assert o in entries + [b];
    } else {
      assert b in entries + [b];
    }
  }

  lemma RootHeld(byHash: map<Hash, Orphan>, byPrev: seq<Orphan>, rank: Hash -> nat, h: Hash)
    requires Mirrored(byHash, byPrev) && Acyclic(rank, byHash) && h in byHash
    ensures var r := Root(rank, byHash, h); r in byHash && byHash[r] in byPrev
  {
  }

  /** Block j of the queue is an orphan whose parent was accepted before it. */
  ghost predicate FromParent(entries: seq<Orphan>, queue: seq<Hash>, j: nat)
    requires j < |queue|
  {
    exists o :: o in entries && o.hashBlock == queue[j] && o.hashPrev in queue[..j]
  }

  /** Where the work queue stands after its first i blocks have been released. */
  ghost predicate Progress(entries: seq<Orphan>, hash: Hash, queue: seq<Hash>, tried: seq<Orphan>, i: nat,
                           left: seq<Orphan>, index: set<Hash>, refused: set<Hash>)
  {
    && 0 < |queue| <= 1 + |tried| && queue[0] == hash && i <= |queue|
    && DistinctHashes(queue) && Distinct(tried) && |tried| + |left| == |entries|
    && (forall h <- queue :: h in index && h !in refused)
    && (forall j :: 1 <= j < |queue| ==> FromParent(entries, queue, j))
    && (forall o :: o in left <==> o in entries && o.hashPrev !in queue[..i])
    && (forall o :: o in tried <==> o in entries && o.hashPrev in queue[..i])
    && (forall o <- tried :: o.hashBlock in index ==> o.hashBlock in queue || o.hashBlock in refused)
  }

  // ---------- the release and the outcomes ----------

  /** The hashes of the accepted ones, in order. */
  function AcceptedOf(children: seq<Orphan>, outcomes: Outcomes): seq<Hash> {
    if children == [] then []
    else
      var last := children[|children| - 1].hashBlock;
      AcceptedOf(children[..|children| - 1], outcomes) + if outcomes(last).Accepted? then [last] else []
  }

  ghost function IndexedOf(children: seq<Orphan>, outcomes: Outcomes): set<Hash> {
    set o | o in children && !outcomes(o.hashBlock).Rejected? :: o.hashBlock
  }

  ghost function RefusedOf(children: seq<Orphan>, outcomes: Outcomes): set<Hash> {
    set o | o in children && outcomes(o.hashBlock).Refused? :: o.hashBlock
  }

  lemma NextOutcome(children: seq<Orphan>, i: nat, outcomes: Outcomes)
    requires i < |children|
    ensures var h := children[i].hashBlock;
      && AcceptedOf(children[..i + 1], outcomes) ==
         AcceptedOf(children[..i], outcomes) + (if outcomes(h).Accepted? then [h] else [])
      && IndexedOf(children[..i + 1], outcomes) ==
         IndexedOf(children[..i], outcomes) + (if outcomes(h).Rejected? then {} else {h})
      && RefusedOf(children[..i + 1], outcomes) ==
         RefusedOf(children[..i], outcomes) + if outcomes(h).Refused? then {h} else {}
  {
    assert children[..i + 1] == children[..i] + [children[i]];
    assert children[..i + 1][..i] == children[..i];
  }

  lemma NoChildren(outcomes: Outcomes)
    ensures AcceptedOf([], outcomes) == [] && IndexedOf([], outcomes) == {} && RefusedOf([], outcomes) == {}
    ensures HashSet([]) == {} && StakeSet([]) == {}
  {
  }

  /** A child is not in the index before its turn. */
  lemma NotIndexedYet(children: seq<Orphan>, i: nat, outcomes: Outcomes)
    requires Distinct(children) && i < |children|
    ensures children[i].hashBlock !in IndexedOf(children[..i], outcomes)
  {
    forall o | o in children[..i]
      ensures o.hashBlock != children[i].hashBlock
    {
      var k :| 0 <= k < i && children[k] == o;
    }
  }

  /** What the outcomes mean for index and refusals, when none of the children was in the index. */
  lemma OutcomeFacts(children: seq<Orphan>, outcomes: Outcomes, index: set<Hash>, refused: set<Hash>)
    requires Distinct(children) && refused <= index && forall c <- children :: c.hashBlock !in index
    ensures var index', refused' := index + IndexedOf(children, outcomes), refused + RefusedOf(children, outcomes);
      var accepted := AcceptedOf(children, outcomes);
      && refused' - refused <= index' - index && refused' <= index' && index' - index <= HashSet(children)
      && DistinctHashes(accepted) && |accepted| <= |children|
      && forall h :: h in accepted <==> h in index' - index && h !in refused'
  {
    hide Distinct, DistinctHashes;
    AcceptedDistinct(children, outcomes);
    forall h
      ensures h in AcceptedOf(children, outcomes)
         <==> outcomes(h).Accepted? && exists o :: o in children && o.hashBlock == h
    {
      AcceptedMeans(children, outcomes, h);
    }
  }

  lemma {:induction false} AcceptedDistinct(children: seq<Orphan>, outcomes: Outcomes)
    requires Distinct(children)
    ensures DistinctHashes(AcceptedOf(children, outcomes)) && |AcceptedOf(children, outcomes)| <= |children|
  {
    if children != [] {
      var n := |children| - 1;
      AcceptedDistinct(children[..n], outcomes);
      var h := children[n].hashBlock;
      AcceptedMeans(children[..n], outcomes, h);
      assert forall o <- children[..n] :: o.hashBlock != h;
      DistinctHashesJoin(AcceptedOf(children[..n], outcomes), [h]);
    }
  }

  lemma {:induction false} AcceptedMeans(children: seq<Orphan>, outcomes: Outcomes, h: Hash)
    ensures h in AcceptedOf(children, outcomes)
       <==> outcomes(h).Accepted? && exists o :: o in children && o.hashBlock == h
  {
    if children != [] {
      var n := |children| - 1;
      AcceptedMeans(children[..n], outcomes, h);
      assert children == children[..n] + [children[n]];
    }
  }

  /** Queue, index and refusals are what the outcomes make of the orphans tried. */
  ghost predicate AsOutcomes(outcomes: Outcomes, hash: Hash, queue: seq<Hash>, tried: seq<Orphan>,
                             index0: set<Hash>, index: set<Hash>, refused0: set<Hash>, refused: set<Hash>)
  {
    && queue == [hash] + AcceptedOf(tried, outcomes)
    && index == index0 + IndexedOf(tried, outcomes) && refused == refused0 + RefusedOf(tried, outcomes)
  }

  lemma StartOutcomes(outcomes: Outcomes, hash: Hash, index: set<Hash>, refused: set<Hash>)
    ensures AsOutcomes(outcomes, hash, [hash], [], index, index, refused, refused)
  {
  }

  lemma {:induction false} AcceptedJoin(a: seq<Orphan>, b: seq<Orphan>, outcomes: Outcomes)
    ensures AcceptedOf(a + b, outcomes) == AcceptedOf(a, outcomes) + AcceptedOf(b, outcomes)
  {
    if b == [] {
      assert a + b == a;
    } else {
      var n := |b| - 1;
      AcceptedJoin(a, b[..n], outcomes);
      assert (a + b)[..|a + b| - 1] == a + b[..n];
    }
  }

  lemma OutcomesStep(outcomes: Outcomes, hash: Hash, queue: seq<Hash>, tried: seq<Orphan>,
                     index0: set<Hash>, index: set<Hash>, refused0: set<Hash>, refused: set<Hash>, children: seq<Orphan>)
    requires AsOutcomes(outcomes, hash, queue, tried, index0, index, refused0, refused)
    ensures AsOutcomes(outcomes, hash, queue + AcceptedOf(children, outcomes), tried + children, index0,
                       index + IndexedOf(children, outcomes), refused0, refused + RefusedOf(children, outcomes))
  {
    hide AcceptedOf, IndexedOf, RefusedOf;
    AcceptedJoin(tried, children, outcomes);
    IndexedJoin(tried, children, outcomes);
  }

  lemma IndexedJoin(a: seq<Orphan>, b: seq<Orphan>, outcomes: Outcomes)
    ensures IndexedOf(a + b, outcomes) == IndexedOf(a, outcomes) + IndexedOf(b, outcomes)
    ensures RefusedOf(a + b, outcomes) == RefusedOf(a, outcomes) + RefusedOf(b, outcomes)
  {
  }

  lemma ProgressBounds(entries: seq<Orphan>, hash: Hash, queue: seq<Hash>, tried: seq<Orphan>, i: nat,
                       left: seq<Orphan>, index: set<Hash>, refused: set<Hash>)
    requires Progress(entries, hash, queue, tried, i, left, index, refused)
    ensures |queue| <= 1 + |entries| && |left| <= |entries| && DistinctHashes(queue)
    ensures forall h <- queue :: h in index && h !in refused
  {
  }

  /** A way from hash to h: orphans, each the child of the one before it, all accepted. */
  ghost predicate IsWay(entries: seq<Orphan>, outcomes: Outcomes, hash: Hash, way: seq<Orphan>, h: Hash) {
    if way == [] then h == hash
    else
      var last := way[|way| - 1];
      && last in entries && outcomes(last.hashBlock).Accepted? && last.hashBlock == h
      && IsWay(entries, outcomes, hash, way[..|way| - 1], last.hashPrev)
  }

  ghost predicate Reached(entries: seq<Orphan>, outcomes: Outcomes, hash: Hash, h: Hash) {
    exists way :: IsWay(entries, outcomes, hash, way, h)
  }

  /** When the queue has been worked off, what can be reached is in it. */
  lemma {:induction false} WayIsQueued(entries: seq<Orphan>, outcomes: Outcomes, hash: Hash, way: seq<Orphan>, h: Hash,
                                       queue: seq<Hash>, tried: seq<Orphan>)
    requires IsWay(entries, outcomes, hash, way, h) && queue == [hash] + AcceptedOf(tried, outcomes)
    requires forall o :: o in entries && o.hashPrev in queue ==> o in tried
    ensures h in queue
  {
    if way != [] {
      var last := way[|way| - 1];
      WayIsQueued(entries, outcomes, hash, way[..|way| - 1], last.hashPrev, queue, tried);
      AcceptedMeans(tried, outcomes, h);
    }
  }

  /** And what is in it can be reached. */
  lemma {:induction false} QueuedIsReached(entries: seq<Orphan>, outcomes: Outcomes, hash: Hash, queue: seq<Hash>,
                                           tried: seq<Orphan>, j: nat)
    requires j < |queue| && queue == [hash] + AcceptedOf(tried, outcomes)
    requires forall k :: 1 <= k < |queue| ==> FromParent(entries, queue, k)
    ensures Reached(entries, outcomes, hash, queue[j])
  {
    if j == 0 {
      assert IsWay(entries, outcomes, hash, [], hash);
    } else {
      assert FromParent(entries, queue, j);
      var o :| o in entries && o.hashBlock == queue[j] && o.hashPrev in queue[..j];
      var k :| 0 <= k < j && queue[k] == o.hashPrev;
      QueuedIsReached(entries, outcomes, hash, queue, tried, k);
      var way :| IsWay(entries, outcomes, hash, way, o.hashPrev);
      assert queue[j] in AcceptedOf(tried, outcomes);
      AcceptedMeans(tried, outcomes, queue[j]);
      assert (way + [o])[..|way|] == way;
      assert IsWay(entries, outcomes, hash, way + [o], queue[j]);
    }
  }

  /** The whole release: queued is what can be reached, tried what has a parent that can be. */
  lemma ReleasedIffReached(outcomes: Outcomes, entries: seq<Orphan>, hash: Hash, queue: seq<Hash>, tried: seq<Orphan>,
                           left: seq<Orphan>, index0: set<Hash>, index: set<Hash>, refused0: set<Hash>, refused: set<Hash>)
    requires Progress(entries, hash, queue, tried, |queue|, left, index, refused)
    requires AsOutcomes(outcomes, hash, queue, tried, index0, index, refused0, refused)
    requires Distinct(entries) && refused0 <= index0 && forall o <- entries :: o.hashBlock !in index0
    ensures forall h :: h in queue <==> Reached(entries, outcomes, hash, h)
    ensures forall o :: o in tried <==> o in entries && Reached(entries, outcomes, hash, o.hashPrev)
    ensures forall h <- queue :: h in index && h !in refused
    ensures forall o <- tried :: (o.hashBlock in index <==> !outcomes(o.hashBlock).Rejected?)
                                 && (o.hashBlock in refused <==> outcomes(o.hashBlock).Refused?)
  {
    assert queue[..|queue|] == queue;
    forall h
      ensures h in queue <==> Reached(entries, outcomes, hash, h)
    {
      if h in queue {
        var j :| 0 <= j < |queue| && queue[j] == h;
        QueuedIsReached(entries, outcomes, hash, queue, tried, j);
      }
      if Reached(entries, outcomes, hash, h) {
        var way :| IsWay(entries, outcomes, hash, way, h);
        WayIsQueued(entries, outcomes, hash, way, h, queue, tried);
      }
    }
  }

  lemma MirroredEntries(byHash: map<Hash, Orphan>, byPrev: seq<Orphan>)
    requires Mirrored(byHash, byPrev)
    ensures Distinct(byPrev) && forall o <- byPrev :: o.hashBlock in byHash
  {
  }

  lemma StartProgress(entries: seq<Orphan>, hash: Hash, index: set<Hash>, refused: set<Hash>)
    requires hash in index && hash !in refused
    ensures Progress(entries, hash, [hash], [], 0, entries, index, refused)
    ensures SetOf([hash][0..]) == {hash}
  {
  }

  lemma DistinctJoin(entries: seq<Orphan>, a: seq<Orphan>, b: seq<Orphan>)
    requires Distinct(entries) && Distinct(a) && Distinct(b)
    requires (forall o <- a :: o in entries && o !in b) && forall o <- b :: o in entries
    ensures Distinct(a + b)
  {
    forall j, k | 0 <= j < |a| && 0 <= k < |b|
      ensures a[j].hashBlock != b[k].hashBlock
    {
      assert a[j] in a && b[k] in b;
      assert a[j] in entries && b[k] in entries;
    }
  }

  lemma DistinctHashesJoin(a: seq<Hash>, b: seq<Hash>)
    requires DistinctHashes(a) && DistinctHashes(b) && forall h <- a :: h !in b
    ensures DistinctHashes(a + b)
  {
    forall j, k | 0 <= j < |a| && 0 <= k < |b|
      ensures a[j] != b[k]
    {
      assert a[j] in a && b[k] in b;
    }
  }

  lemma ProgressStep(entries: seq<Orphan>, hash: Hash, queue: seq<Hash>, tried: seq<Orphan>, i: nat,
                     left: seq<Orphan>, index: set<Hash>, refused: set<Hash>,
                     accepted: seq<Hash>, index': set<Hash>, refused': set<Hash>)
    requires Progress(entries, hash, queue, tried, i, left, index, refused) && i < |queue|
    requires Distinct(entries) && Distinct(left) && |accepted| <= |Children(left, queue[i])|
    requires DistinctHashes(accepted) && refused <= refused' && index <= index' && refused' - refused <= index' - index
    requires index' - index <= HashSet(Children(left, queue[i])) && forall c <- left :: c.hashBlock !in index
    requires forall h :: h in accepted <==> h in index' - index && h !in refused'
    ensures Progress(entries, hash, queue + accepted, tried + Children(left, queue[i]), i + 1,
                     Others(left, queue[i]), index', refused')
  {
    hide Distinct, DistinctHashes, HashSet, FromParent, Children, Others;
    var children, longer := Children(left, queue[i]), queue + accepted;
    SplitByParent(left, queue[i]);
    SplitDistinct(left, queue[i]);
    assert longer[..i + 1] == queue[..i] + [queue[i]];
    DistinctJoin(entries, tried, children);
    DistinctHashesJoin(queue, accepted);
    FromParentStep(entries, queue, accepted, children, i);
  }

  lemma FromParentStep(entries: seq<Orphan>, queue: seq<Hash>, accepted: seq<Hash>, children: seq<Orphan>, i: nat)
    requires i < |queue| && forall j :: 1 <= j < |queue| ==> FromParent(entries, queue, j)
    requires forall h <- accepted :: h in HashSet(children)
    requires forall c <- children :: c in entries && c.hashPrev == queue[i]
    ensures forall j :: 1 <= j < |queue + accepted| ==> FromParent(entries, queue + accepted, j)
  {
    var longer := queue + accepted;
    forall j: nat | 1 <= j < |longer|
      ensures FromParent(entries, longer, j)
    {
      if j < |queue| {
        assert FromParent(entries, queue, j);
        assert longer[..j] == queue[..j];
      } else {
        assert longer[j] in accepted;
        InHashSet(children, longer[j]);
        assert longer[..j][i] == queue[i];
      }
    }
  }

  lemma InHashSet(entries: seq<Orphan>, h: Hash)
    requires h in HashSet(entries)
    ensures exists o :: o in entries && o.hashBlock == h
  {
  }

  ghost function SetOf(hashes: seq<Hash>): set<Hash> {
    set h | h in hashes
  }

  lemma PendingStep(queue: seq<Hash>, accepted: seq<Hash>, i: nat)
    requires i < |queue| && DistinctHashes(queue)
    ensures SetOf(queue[i..]) - {queue[i]} + (set h | h in accepted) == SetOf((queue + accepted)[i + 1..])
  {
    assert (queue + accepted)[i + 1..] == queue[i + 1..] + accepted;
    assert queue[i..] == [queue[i]] + queue[i + 1..];
  }

  lemma SplitMirrored(byHash: map<Hash, Orphan>, byPrev: seq<Orphan>, hash: Hash)
    requires Mirrored(byHash, byPrev)
    ensures Mirrored(byHash - HashSet(Children(byPrev, hash)), Others(byPrev, hash))
  {
    SplitByParent(byPrev, hash);
    SplitDistinct(byPrev, hash);
  }

  lemma StakesForgotten(entries: seq<Orphan>, hash: Hash, s: Stake)
    requires HoldsStake(entries, s) && s !in StakeSet(Children(entries, hash))
    ensures HoldsStake(Others(entries, hash), s)
  {
    SplitByParent(entries, hash);
    var o :| o in entries && o.stake == Some(s);
    assert o in Children(entries, hash) ==> s in StakeSet(Children(entries, hash));
    assert o in Others(entries, hash);
  }

  ghost predicate DistinctHashes(hashes: seq<Hash>) {
    forall j, k :: 0 <= j < k < |hashes| ==> hashes[j] != hashes[k]
  }

  ghost function HashSet(entries: seq<Orphan>): set<Hash> {
    set o | o in entries :: o.hashBlock
  }

  ghost function StakeSet(entries: seq<Orphan>): set<Stake> {
    set o | o in entries && o.stake.Some? :: o.stake.value
  }

  lemma NextChild(children: seq<Orphan>, i: nat)
    requires Distinct(children) && i < |children|
    ensures HashSet(children[..i + 1]) == HashSet(children[..i]) + {children[i].hashBlock}
    ensures children[i].hashBlock !in HashSet(children[..i])
    ensures forall seen: set<Stake> ::
      Forget(seen - StakeSet(children[..i]), children[i].stake) == seen - StakeSet(children[..i + 1])
  {
    assert children[..i + 1] == children[..i] + [children[i]];
    var c := children[i];
    assert StakeSet(children[..i + 1]) ==
      StakeSet(children[..i]) + (if c.stake.Some? then {c.stake.value} else {});
  }

  // ---------- an orphan left behind ----------

  /**
   * A run that leaves an orphan waiting for a parent that is known: the child is held, the parent enters the index and
   * is refused, and neither of them is looked at again when it comes once more.
   */
  method ChildOfRefused(parent: Orphan, child: Orphan, ghost rank: Hash -> nat)
    returns (pool: OrphanPool, okParent: bool, okChild: bool)
    requires parent.hashPrev == 0 && parent.hashBlock != 0 && child.hashPrev == parent.hashBlock
    requires child.hashBlock != 0 && child.hashBlock != parent.hashBlock
    requires rank(0) < rank(parent.hashBlock) < rank(child.hashBlock)
    ensures fresh(pool) && pool.Valid() && !okParent && !okChild
    ensures pool.mapOrphanBlocks == map[child.hashBlock := child] && child.hashPrev in pool.mapBlockIndex
  {
    hide Progress, OrphanPool.Valid;
    pool := new OrphanPool(0, 10, rank);
    var accept: Outcomes := _ => Accepted;
    var refuse: Outcomes := _ => Refused;
    var ok, wanted;
    ghost var queue, tried;
    ok, wanted, queue, tried := pool.ProcessBlock(child, true, false, true, accept);
    ok, wanted, queue, tried := pool.ProcessBlock(parent, true, true, true, refuse);
    okParent, wanted, queue, tried := pool.ProcessBlock(parent, true, false, true, accept);
    okChild, wanted, queue, tried := pool.ProcessBlock(child, true, false, true, accept);
  }
}
