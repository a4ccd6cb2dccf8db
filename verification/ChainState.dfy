/** The best chain: connecting, disconnecting and reorganising, with the in-memory links kept beside the database. */
module ChainState {
  import opened Common
  import opened Transactions
  import opened TxIndexing
  import opened TxDatabase
  import opened ConnectInputs
  import opened ChainLinks
  import opened SpendHistory
  import opened MoneySupply
  import opened TxIds
  import opened ChainMoves

  /** b and all its ancestors but the genesis block have a counter. */
  ghost predicate Covered(m: map<BlockIndex, int>, b: BlockIndex) {
    b.Genesis? || (b in m && Covered(m, b.pprev))
  }

  ghost predicate CountersMatch(m: map<BlockIndex, int>) {
    forall b :: b in m ==> Replay(b).Some? && m[b] == Supply(b)
  }

  lemma {:induction false} CoveredGrows(m: map<BlockIndex, int>, m': map<BlockIndex, int>, b: BlockIndex)
    requires Covered(m, b) && m.Keys <= m'.Keys
    ensures Covered(m', b)
  {
    if b.Child? {
      CoveredGrows(m, m', b.pprev);
    }
  }

  lemma {:induction false} CoveredAncestor(m: map<BlockIndex, int>, a: BlockIndex, b: BlockIndex)
    requires Covered(m, b) && IsAncestor(a, b)
    ensures Covered(m, a)
  {
    if a != b {
      CoveredAncestor(m, a, b.pprev);
    }
  }

  lemma {:induction false} DistinctIdsAncestor(a: BlockIndex, b: BlockIndex)
    requires DistinctIds(b) && IsAncestor(a, b)
    ensures DistinctIds(a)
  {
    if a != b {
      DistinctIdsAncestor(a, b.pprev);
    }
  }

  /** The summed values of the fetched inputs. */
  method GetValueIn(ghost ix: Index, inputs: MapPrevTx, vin: seq<OutPoint>) returns (nValueIn: int)
    requires AllFound(ix, vin) && Fetched(ix, inputs) && CoversInputs(inputs, vin)
    ensures nValueIn == InputSum(ix, vin)
  {
    nValueIn := 0;
    for i := 0 to |vin|
      invariant AllFound(ix, vin[..i]) && nValueIn == InputSum(ix, vin[..i])
    {
      assert Found(ix, vin[i]);
      assert vin[..i + 1][..i] == vin[..i];
      nValueIn := nValueIn + inputs[vin[i].hash].1.vout[vin[i].n].nValue;
    }
    assert vin[..|vin|] == vin;
  }

  /** Fetches, checks and queues the changes of one transaction. */
  method ConnectTransaction(db: TxDb, queued0: Index, tx: Tx, pos: TxPos, ghost pr: Progress)
    returns (ok: bool, queued: Index, nTxValueIn: int)
    requires pr.ix == db.View() + queued0
    ensures ok <==> ConnectTx(pr, tx, pos).Some?
    ensures ok ==> ConnectTx(pr, tx, pos).value.ix == db.View() + queued
    ensures ok && !tx.IsCoinBase() ==> AllFound(pr.ix, tx.vin) && nTxValueIn == InputSum(pr.ix, tx.vin)
  {
    queued, nTxValueIn := queued0, 0;
    if !tx.IsCoinBase() {
      var inputs;
      ok, inputs := FetchInputs(db, queued, tx);
      if !ok {
        return;
      }
      nTxValueIn := GetValueIn(pr.ix, inputs, tx.vin);
      ok, queued := ConnectInputs.ConnectInputs(db.View(), inputs, queued, tx, pos);
      if !ok {
        return;
      }
    }
    OverlayUpdate(db.View(), queued, tx.id, FreshEntry(pos, |tx.vout|));
    queued := queued[tx.id := FreshEntry(pos, |tx.vout|)];
    ok := true;
  }

  /**
   * Connects the transactions of bi against the database overlaid with the queue.
   * On success the overlay is the index after the block; the database is only read.
   */
  method ConnectTransactions(db: TxDb, bi: BlockIndex) returns (ok: bool, queued: Index,
      nFees: int, nValueIn: int, nValueOut: int, nStakeReward: int)
    ensures ok <==> ConnectTxs(db.View(), bi, |bi.block.vtx|).Some?
    ensures ok ==> ConnectTxs(db.View(), bi, |bi.block.vtx|) ==
                   Some(Progress(db.View() + queued, nFees, nValueIn, nValueOut, nStakeReward))
  {
    hide InputsConnect, MarkSpent, FreshEntry, OutputSum, InputSum;
    var n := |bi.block.vtx|;
    queued, nFees, nValueIn, nValueOut, nStakeReward := map[], 0, 0, 0, 0;
    ghost var pr := Start(db.View());
    assert db.View() + queued == db.View();
    for i := 0 to n
      invariant pr == Progress(db.View() + queued, nFees, nValueIn, nValueOut, nStakeReward)
      invariant ConnectTxs(db.View(), bi, i) == Some(pr)
    {
      var tx := bi.block.vtx[i];
      var nTxValueIn;
      ghost var next := ConnectTx(pr, tx, TxPos(bi, i));
      assert ConnectTxs(db.View(), bi, i + 1) == next;
      ok, queued, nTxValueIn := ConnectTransaction(db, queued, tx, TxPos(bi, i), pr);
      if !ok {
        FailurePropagates(db.View(), bi, i + 1, n);
        return;
      }
      nValueOut := nValueOut + OutputSum(tx.vout);
      if !tx.IsCoinBase() {
        nValueIn := nValueIn + nTxValueIn;
        if tx.IsCoinStake() {
          nStakeReward := OutputSum(tx.vout) - nTxValueIn;
        } else {
          nFees := nFees + nTxValueIn - OutputSum(tx.vout);
        }
      }
      pr := next.value;
    }
    ok := true;
  }

  /** Writes the queued entries to the database, one key after the other. */
  method WriteQueued(db: TxDb, queued: Index)
    requires db.Valid() && db.active
    modifies db`batch
    ensures db.Valid() && db.View() == old(db.View()) + queued
  {
    ghost var ix := db.View();
    var keys := queued.Keys;
    while keys != {}
      invariant db.Valid() && keys <= queued.Keys
      invariant db.View() == ix + (queued - keys)
    {
      var h :| h in keys;
      assert queued - (keys - {h}) == (queued - keys)[h := queued[h]];
      OverlayUpdate(ix, queued - keys, h, queued[h]);
      db.UpdateTxIndex(h, queued[h]);
      keys := keys - {h};
    }
    assert queued - {} == queued;
  }

  /** Disconnects the transactions of bi, last first. */
  method DisconnectBlock(db: TxDb, bi: BlockIndex) returns (ok: bool)
    requires db.Valid() && db.active
    modifies db`batch
    ensures db.Valid()
    ensures ok <==> AfterDisconnect(old(db.View()), bi).Some?
    ensures ok ==> Some(db.View()) == AfterDisconnect(old(db.View()), bi)
  {
    ghost var ix := db.View();
    for i := |bi.block.vtx| downto 0
      invariant db.Valid() && db.active
      invariant DisconnectTxs(ix, bi, |bi.block.vtx|) == DisconnectTxs(db.View(), bi, i)
    {
      ghost var before := db.View();
      ok := DisconnectInputs(db, bi.block.vtx[i]);
      assert DisconnectTxs(before, bi, i + 1) ==
             if ok then DisconnectTxs(db.View(), bi, i) else None;
      if !ok {
        return;
      }
    }
    ok := true;
  }

  lemma CannotReach(verdict: Verdict, from: BlockIndex, a: BlockIndex, b: BlockIndex)
    requires !CanReach(verdict, from, a) && IsAncestor(a, b)
    ensures !CanReach(verdict, from, b)
  {
    if CanReach(verdict, from, b) {
      CanReachAncestor(verdict, from, a, b);
      assert false;
    }
  }

  /** Connecting on top of a replayed chain replays the longer one, and keeps the counters. */
  lemma ConnectedOn(m: map<BlockIndex, int>, bi: BlockIndex)
    requires bi.Child? && Replay(bi).Some? && Covered(m, bi.pprev)
    requires CountersMatch(m)
    ensures
      var pr := AfterConnect(Replay(bi.pprev).value, bi).value;
      var m' := m[bi := (if bi.pprev in m then m[bi.pprev] else 0) + pr.nValueOut - pr.nValueIn];
      Covered(m', bi) && CountersMatch(m')
  {
    var pr := AfterConnect(Replay(bi.pprev).value, bi).value;
    var v := (if bi.pprev in m then m[bi.pprev] else 0) + pr.nValueOut - pr.nValueIn;
    CoveredGrows(m, m[bi := v], bi.pprev);
    if bi.pprev.Genesis? && bi.pprev in m {
      assert m[bi.pprev] == 0;
    }
  }

  /** Ids are hashes, and no coinbase of the chain repeats the id of an earlier transaction. */
  ghost predicate IdsOk(b: BlockIndex) {
    InjectiveIds(b) && CoinBasesFresh(b)
  }

  /** Every received block descends from the genesis block, and its parent was received. */
  ghost predicate TreeOk(known: set<BlockIndex>, genesis: BlockIndex) {
    && genesis.Genesis?
    && forall b :: b in known ==> b.Root() == genesis && IdsOk(b) && (b.Child? ==> b.pprev in known)
  }

  lemma InTree(known: set<BlockIndex>, genesis: BlockIndex, b: BlockIndex)
    requires TreeOk(known, genesis) && b in known
    ensures b.Root() == genesis && IsAncestor(genesis, b) && (Replay(b).Some? ==> DistinctIds(b))
  {
    RootIsAncestor(b);
    if Replay(b).Some? {
      IdsAreDistinct(b);
    }
  }

  lemma {:induction false} PathInTree(known: set<BlockIndex>, genesis: BlockIndex, f: BlockIndex, b: BlockIndex)
    requires TreeOk(known, genesis) && b in known && IsAncestor(f, b)
    ensures forall i :: 0 <= i < |Path(f, b)| ==> Path(f, b)[i] in known
  {
    if f != b {
      PathInTree(known, genesis, f, b.pprev);
    }
  }

  lemma TreeGrows(known: set<BlockIndex>, genesis: BlockIndex, b: BlockIndex)
    requires TreeOk(known, genesis) && b.Child? && b.pprev in known && IdsOk(b)
    ensures TreeOk(known + {b}, genesis)
  {
  }

  lemma {:induction false} ParentTrust(b: BlockIndex, m: BlockIndex)
    requires b.Child? && m.Child? && IsAncestor(b, m)
    ensures b.pprev.ChainTrust() <= m.pprev.ChainTrust()
  {
    if b != m {
      ParentTrust(b, m.pprev);
    }
  }

  lemma FarthestHere(verdict: Verdict, from: BlockIndex, to: BlockIndex)
    requires CanReach(verdict, from, to)
    ensures FarthestTip(verdict, from, to, to)
  {
  }

  /** The next block of the best chain is reached in one transaction. */
  lemma OneBlock(verdict: Verdict, best: BlockIndex, b: BlockIndex)
    requires b.Child? && b.pprev == best && Replay(best).Some?
    ensures Intermediate(b, best.ChainTrust()) == b
    ensures CanReach(verdict, best, b) <==> verdict(b) && Replay(b).Some?
  {
    CanReachSelf(verdict, best);
    CanReachStep(verdict, best, b);
  }

  lemma MoreTrustIsNew(best: BlockIndex, b: BlockIndex)
    ensures b.ChainTrust() > best.ChainTrust() ==> !IsAncestor(b, best)
  {
    if IsAncestor(b, best) {
      AncestorTrust(b, best);
    }
  }

  lemma SelfAncestor(b: BlockIndex)
    ensures IsAncestor(b, b)
  {
  }

  /** The rule for a block of more trust, in terms of the trust of single blocks. */
  lemma ComparedByBlocks(from: BlockIndex, b: BlockIndex, verdict: Verdict)
    requires Replay(from).Some? && b != from
    ensures forall f :: IsLastCommonAncestor(f, from, b) ==>
      && (b.ChainTrust() > from.ChainTrust() <==> TrustSum(Path(f, b)) > TrustSum(Path(f, from)))
      && (b.ChainTrust() > from.ChainTrust() ==>
            Intermediate(b, from.ChainTrust()) == FirstBetter(Path(f, b), TrustSum(Path(f, from))))
    ensures b.Child? && from.Child? && b.pprev == from.pprev ==>
      && (b.ChainTrust() > from.ChainTrust() <==> b.block.nTrust > from.block.nTrust)
      && (CanReach(verdict, from, Intermediate(b, from.ChainTrust())) <==> verdict(b) && Replay(b).Some?)
  {
    hide Replay, CanReach, Intermediate, BlockIndex.ChainTrust, TrustSum, FirstBetter, Path;
    forall f | IsLastCommonAncestor(f, from, b)
      ensures b.ChainTrust() > from.ChainTrust() <==> TrustSum(Path(f, b)) > TrustSum(Path(f, from))
      ensures b.ChainTrust() > from.ChainTrust() ==>
        Intermediate(b, from.ChainTrust()) == FirstBetter(Path(f, b), TrustSum(Path(f, from)))
    {
      BranchesCompared(f, from, b);
    }
    if b.Child? && from.Child? && b.pprev == from.pprev {
      SiblingsCompared(from, b);
    }
  }

  lemma FarthestIsAncestor(verdict: Verdict, from: BlockIndex, to: BlockIndex, tip: BlockIndex)
    requires FarthestTip(verdict, from, to, tip)
    ensures IsAncestor(tip, to)
  {
  }

  lemma {:induction false} ChainIdsGrow(a: BlockIndex, b: BlockIndex)
    requires IsAncestor(a, b)
    ensures ChainIds(a) <= ChainIds(b)
  {
    if a != b {
      ChainIdsGrow(a, b.pprev);
    }
  }

  /** The first transaction of a block that replays, and where its id can be. */
  lemma CoinBaseOf(m: BlockIndex)
    requires m.Child? && Replay(m).Some? && DistinctIds(m)
    ensures m.block.vtx != [] && m.block.vtx[0].id in ChainIds(m) && m.block.vtx[0].id !in ChainIds(m.pprev)
  {
    assert m.block.vtx[0] in m.block.vtx;
  }

  /** The index of the chain of d with block b on top is not that of b's chain, when blocks are missing between. */
  lemma LacksParent(d: BlockIndex, m: BlockIndex, b: BlockIndex, ix: Index)
    requires Replay(d) == Some(ix) && IsAncestor(d, m) && d != m && b.Child? && b.pprev == m
    requires AfterConnect(ix, b).Some? && (Replay(b).Some? ==> DistinctIds(b))
    ensures Replay(b) != Some(AfterConnect(ix, b).value.ix)
  {
    hide AfterConnect, ConnectTxs;
    if Replay(b) == Some(AfterConnect(ix, b).value.ix) {
      ReplayAncestor(m, b);
      CoinBaseOf(m);
      ChainIdsGrow(d, m.pprev);
      ReplayKeys(d);
      ReplayKeys(b);
      KeysAfter(ix, b);
      assert false;
    }
  }

  lemma KeysAfter(ix: Index, b: BlockIndex)
    requires AfterConnect(ix, b).Some?
    ensures AfterConnect(ix, b).value.ix.Keys == ix.Keys + set tx <- b.block.vtx :: tx.id
  {
    ConnectTxsKeys(ix, b, |b.block.vtx|);
    assert (set i | 0 <= i < |b.block.vtx| :: b.block.vtx[i].id) == set tx <- b.block.vtx :: tx.id;
  }

  /**
   * One more block, while the outside checks always say the same: a parent that has more trust than the best chain
   * did not pass, so that either nothing is postponed or the move fails at once.
   */
  lemma SettledStep(known: set<BlockIndex>, genesis: BlockIndex, best: BlockIndex, b: BlockIndex, verdict: Verdict)
    requires TreeOk(known, genesis) && best in known && b.Child? && b.pprev in known
    requires CanReach(verdict, genesis, best)
    requires forall x :: x in known && CanReach(verdict, genesis, x) ==> x.ChainTrust() <= best.ChainTrust()
    ensures CanReach(verdict, best, b) <==> CanReach(verdict, genesis, b)
    ensures b.ChainTrust() > best.ChainTrust() ==>
      (CanReach(verdict, best, Intermediate(b, best.ChainTrust())) <==> CanReach(verdict, best, b))
  {
    hide CanReach;
    InTree(known, genesis, best);
    var m := Intermediate(b, best.ChainTrust());
    IntermediateMeans(b, best.ChainTrust());
    CanReachFromBest(verdict, genesis, best, b);
    CanReachFromBest(verdict, genesis, best, m);
    if m != b {
      KnownAncestor(known, genesis, m, b.pprev);
      CannotReach(verdict, best, m, b);
    }
  }

  lemma {:induction false} KnownAncestor(known: set<BlockIndex>, genesis: BlockIndex, a: BlockIndex, b: BlockIndex)
    requires TreeOk(known, genesis) && b in known && IsAncestor(a, b)
    ensures a in known
  {
    if a != b {
      KnownAncestor(known, genesis, a, b.pprev);
    }
  }

  class Chain {
    const db: TxDb
    const genesis: BlockIndex
    /** the block index: every block received and accepted */
    var known: set<BlockIndex>
    var pnext: map<BlockIndex, BlockIndex>
    var nMoneySupply: map<BlockIndex, int>
    var pindexBest: BlockIndex
    var nBestHeight: nat
    var nBestChainTrust: nat
    /** where FindBlockByHeight last ended, if the chain has not changed since */
    var pblockindexFBBHLast: Option<BlockIndex>

    /** Index, links and counters all describe the chain that ends in tip. */
    ghost predicate Describes(ix: Index, tip: BlockIndex)
      reads this
    {
      && TreeOk(known, genesis) && tip in known
      && Replay(tip) == Some(ix)
      && pnext == LinksTo(tip)
      && CountersMatch(nMoneySupply) && Covered(nMoneySupply, tip)
    }

    /** What is on disk is the replay of the chain that is recorded on disk as the best one. */
    ghost predicate Durable()
      reads this, db
    {
      db.Valid() && !db.active && Describes(db.committed, db.committedBest)
    }

    /** What is kept in memory about the best block. */
    ghost predicate Recorded()
      reads this
    {
      && pindexBest in known
      && nBestHeight == pindexBest.Height() && nBestChainTrust == pindexBest.ChainTrust()
      && (pblockindexFBBHLast.Some? ==> IsAncestor(pblockindexFBBHLast.value, pindexBest))
    }

    /** The chain on disk is the best chain in memory. */
    ghost predicate Valid()
      reads this, db
    {
      Durable() && Recorded() && db.committedBest == pindexBest
    }

    /** The chain on disk ends before the best chain in memory does. */
    ghost predicate Behind()
      reads this, db
    {
      Durable() && Recorded() && db.committedBest != pindexBest && IsAncestor(db.committedBest, pindexBest)
    }

    /**
     * While the outside checks always say the same: the best chain passes, and no chain received that passes has
     * more trust.
     */
    ghost predicate Settled(verdict: Verdict)
      reads this
    {
      && CanReach(verdict, genesis, pindexBest)
      && forall b :: b in known && CanReach(verdict, genesis, b) ==> b.ChainTrust() <= pindexBest.ChainTrust()
    }

    /** A node that has just accepted the genesis block. */
    constructor (g: BlockIndex)
      requires g.Genesis?
      ensures Valid() && fresh(db) && pindexBest == g && genesis == g && known == {g}
      ensures forall verdict :: Settled(verdict)
    {
      db := new TxDb(g);
      genesis, known, pnext, nMoneySupply := g, {g}, map[], map[];
      pindexBest, nBestHeight, nBestChainTrust := g, 0, g.ChainTrust();
      pblockindexFBBHLast := None;
    }

    /** `verdict` is the outcome of the outside checks on this block. */
    method ConnectBlock(bi: BlockIndex, verdict: bool) returns (ok: bool)
      requires db.Valid() && db.active && bi.Child?
      modifies this`nMoneySupply, db`batch
      ensures db.Valid()
      ensures ok <==> verdict && AfterConnect(old(db.View()), bi).Some?
      ensures !ok ==> db.View() == old(db.View()) && nMoneySupply == old(nMoneySupply)
      ensures ok ==>
        var pr := AfterConnect(old(db.View()), bi).value;
        var m := old(nMoneySupply);
        && db.View() == pr.ix
        && nMoneySupply == m[bi := (if bi.pprev in m then m[bi.pprev] else 0) + pr.nValueOut - pr.nValueIn]
    {
      if !verdict || !CheckBlock(bi.block) {
        return false;
      }
      var queued, nFees, nValueIn, nValueOut, nStakeReward;
      ok, queued, nFees, nValueIn, nValueOut, nStakeReward := ConnectTransactions(db, bi);
      if !ok {
        return;
      }
      if !bi.block.IsProofOfStake() && OutputSum(bi.block.vtx[0].vout) > WorkSubsidy(bi.Height()) + nFees {
        return false;
      }
      if bi.block.IsProofOfStake() && nStakeReward > StakeSubsidy(bi.Height()) + nFees {
        return false;
      }
      nMoneySupply := nMoneySupply[bi :=
        (if bi.pprev in nMoneySupply then nMoneySupply[bi.pprev] else 0) + nValueOut - nValueIn];
      WriteQueued(db, queued);
    }

    /**
     * Attaches one block to whatever is on disk, in the open database transaction.
     * When that is the chain of the block's parent, the chain on disk grows by
     * the block.
     */
    method SetBestChainInner(pindexNew: BlockIndex, verdict: bool) returns (ok: bool)
      requires db.Valid() && db.active && db.batch == [] && pindexNew.Child?
      modifies this`nMoneySupply, this`pnext, db
      ensures db.Valid() && !db.active
      ensures ok <==> verdict && AfterConnect(old(db.committed), pindexNew).Some?
      ensures ok ==> db.committedBest == pindexNew && pnext == old(pnext)[pindexNew.pprev := pindexNew]
                     && db.committed == AfterConnect(old(db.committed), pindexNew).value.ix
      ensures !ok ==> db.committed == old(db.committed) && db.committedBest == old(db.committedBest)
                      && pnext == old(pnext) && nMoneySupply == old(nMoneySupply)
      ensures old(Describes(db.committed, db.committedBest)) && !ok ==> Durable()
      ensures old(Describes(db.committed, db.committedBest)) && pindexNew in known
              && pindexNew.pprev == old(db.committedBest) ==>
                Durable() && (ok <==> verdict && Replay(pindexNew).Some?)
    {
      hide TreeOk, CountersMatch, Covered, DistinctIds, AfterConnect, ConnectTxs, Replay;
      ok := ConnectBlock(pindexNew, verdict);
      if !ok {
        db.TxnAbort();
      } else {
        db.WriteHashBestChain(pindexNew);
        db.TxnCommit();
        pnext := pnext[pindexNew.pprev := pindexNew];
      }
      if old(Describes(db.committed, db.committedBest)) && pindexNew.pprev == old(db.committedBest) {
        ReplayStep(pindexNew);
        if ok {
          ConnectedOn(old(nMoneySupply), pindexNew);
        }
      }
    }

    /**
     * Moves the chain on disk to pindexNew in one database transaction. The
     * links in memory change only after the commit.
     */
    method Reorganize(pindexNew: BlockIndex, verdict: Verdict) returns (ok: bool)
      requires db.Valid() && db.active && db.batch == []
      requires Describes(db.committed, db.committedBest) && db.committedBest == pindexBest
      requires pindexNew in known
      modifies this`nMoneySupply, this`pnext, db
      ensures ok <==> CanReach(verdict, pindexBest, pindexNew)
      ensures ok ==> Durable() && db.committedBest == pindexNew
      ensures !ok ==> db.Valid() && Describes(db.committed, db.committedBest)
      ensures !ok ==> db.committedBest == old(db.committedBest) && db.committed == old(db.committed)
    {
      hide TreeOk, CountersMatch, Covered, Replay, LinksTo, Path, PathBack, IsAncestor, DistinctIds, CanReach;
      var pfork;
      InTree(known, genesis, pindexBest);
      InTree(known, genesis, pindexNew);
      ok, pfork := FindFork(pindexBest, pindexNew);
      CanReachFromFork(verdict, pfork, pindexBest, pindexNew);
      ReplayAncestor(pfork, pindexBest);
      CoveredAncestor(nMoneySupply, pfork, pindexBest);
      var back := CollectBack(pfork, pindexBest);
      var forth := CollectBack(pfork, pindexNew);
      forth := Reversed(forth);
      ReversePathBack(pfork, pindexNew);
      ok := DisconnectBranch(pfork, back);
      ok := ConnectBranch(pfork, forth, pindexNew, verdict);
      if !ok {
        CoveredGrows(old(nMoneySupply), nMoneySupply, pindexBest);
        return;
      }
      db.WriteHashBestChain(pindexNew);
      db.TxnCommit();
      UnlinkBranch(pfork, back);
      LinkBranch(pfork, forth, pindexNew);
    }

    /** Undoes the blocks of `back`, tip first; it cannot fail on a replayed chain. */
    method DisconnectBranch(pfork: BlockIndex, back: seq<BlockIndex>) returns (ok: bool)
      requires db.Valid() && db.active && IsAncestor(pfork, pindexBest) && back == PathBack(pfork, pindexBest)
      requires Replay(pindexBest) == Some(db.View()) && DistinctIds(pindexBest)
      modifies db`batch
      ensures ok && db.Valid() && Replay(pfork) == Some(db.View())
    {
      ghost var cur := pindexBest;
      for i := 0 to |back|
        invariant db.Valid() && db.active && IsAncestor(cur, pindexBest)
        invariant cur == if i == |back| then pfork else back[i]
        invariant Replay(cur) == Some(db.View())
      {
        PathBackSteps(pfork, pindexBest, i);
        DistinctIdsAncestor(cur, pindexBest);
        DisconnectTip(cur);
        ok := DisconnectBlock(db, back[i]);
        AncestorTransitive(cur.pprev, cur, pindexBest);
        cur := cur.pprev;
      }
      ok := true;
    }

    method ConnectBranch(pfork: BlockIndex, forth: seq<BlockIndex>, pindexNew: BlockIndex, verdict: Verdict)
      returns (ok: bool)
      requires db.Valid() && db.active && IsAncestor(pfork, pindexNew) && forth == Path(pfork, pindexNew)
      requires Replay(pfork) == Some(db.View()) && CountersMatch(nMoneySupply) && Covered(nMoneySupply, pfork)
      modifies db`batch, this`nMoneySupply
      ensures db.Valid() && CountersMatch(nMoneySupply)
      ensures old(nMoneySupply).Keys <= nMoneySupply.Keys
      ensures ok <==> CanReach(verdict, pfork, pindexNew)
      ensures ok ==> Replay(pindexNew) == Some(db.View()) && Covered(nMoneySupply, pindexNew)
    {
      hide CountersMatch, Covered, Path, IsAncestor, DistinctIds, Replay, AfterConnect, ConnectTxs, CanReach;
      ghost var cur := pfork;
      CanReachSelf(verdict, pfork);
      for i := 0 to |forth|
        invariant db.Valid() && db.active
        invariant cur == PathPoint(pfork, pindexNew, i) && CanReach(verdict, pfork, cur)
        invariant Replay(cur) == Some(db.View()) && CountersMatch(nMoneySupply) && Covered(nMoneySupply, cur)
        invariant old(nMoneySupply).Keys <= nMoneySupply.Keys
      {
        PathSteps(pfork, pindexNew, i);
        PathPointBetween(pfork, pindexNew, i);
        ReplayStep(forth[i]);
        CanReachStep(verdict, pfork, forth[i]);
        ghost var m := nMoneySupply;
        ok := ConnectBlock(forth[i], verdict(forth[i]));
        if !ok {
          CannotReach(verdict, pfork, forth[i], pindexNew);
          return;
        }
        cur := forth[i];
        ConnectedOn(m, cur);
      }
      PathPointBetween(pfork, pindexNew, |forth|);
      ok := true;
    }

    method UnlinkBranch(pfork: BlockIndex, back: seq<BlockIndex>)
      requires IsAncestor(pfork, pindexBest) && back == PathBack(pfork, pindexBest) && pnext == LinksTo(pindexBest)
      modifies this`pnext
      ensures pnext == LinksTo(pfork)
    {
      ghost var cur := pindexBest;
      for i := 0 to |back|
        invariant cur == if i == |back| then pfork else back[i]
        invariant pnext == LinksTo(cur)
      {
        PathBackSteps(pfork, pindexBest, i);
        Unlink(cur);
        pnext := pnext - {back[i].pprev};
        cur := cur.pprev;
      }
    }

    method LinkBranch(pfork: BlockIndex, forth: seq<BlockIndex>, pindexNew: BlockIndex)
      requires IsAncestor(pfork, pindexNew) && forth == Path(pfork, pindexNew) && pnext == LinksTo(pfork)
      modifies this`pnext
      ensures pnext == LinksTo(pindexNew)
    {
      for i := 0 to |forth|
        invariant pnext == LinksTo(if i == 0 then pfork else forth[i - 1])
      {
        PathSteps(pfork, pindexNew, i);
        pnext := pnext[forth[i].pprev := forth[i]];
      }
    }

    /**
     * Chooses how far to move in one database transaction: back from pindexNew
     * while the parent already has more trust than the best chain.
     */
    method Postpone(pindexNew: BlockIndex) returns (pindexIntermediate: BlockIndex, vpindexSecondary: seq<BlockIndex>)
      requires TreeOk(known, genesis) && pindexNew in known
      ensures pindexIntermediate == Intermediate(pindexNew, pindexBest.ChainTrust()) && pindexIntermediate in known
      ensures IsAncestor(pindexIntermediate, pindexNew) && vpindexSecondary == PathBack(pindexIntermediate, pindexNew)
      // it is the first of the branch with more trust than the best chain, if pindexNew has more
      ensures pindexNew.ChainTrust() > pindexBest.ChainTrust() ==> pindexIntermediate.ChainTrust() > pindexBest.ChainTrust()
      ensures forall b: BlockIndex :: b.Child? && IsAncestor(b, pindexIntermediate) ==>
                b.pprev.ChainTrust() <= pindexBest.ChainTrust()
    {
      pindexIntermediate, vpindexSecondary := pindexNew, [];
      while pindexIntermediate.Child? && pindexIntermediate.pprev.ChainTrust() > pindexBest.ChainTrust()
        invariant pindexIntermediate in known && IsAncestor(pindexIntermediate, pindexNew)
        invariant Intermediate(pindexIntermediate, pindexBest.ChainTrust()) ==
                  Intermediate(pindexNew, pindexBest.ChainTrust())
        invariant vpindexSecondary == PathBack(pindexIntermediate, pindexNew)
        decreases pindexIntermediate.Height()
      {
        PathBackExtend(pindexIntermediate, pindexNew);
        vpindexSecondary := vpindexSecondary + [pindexIntermediate];
        pindexIntermediate := pindexIntermediate.pprev;
      }
      IntermediateMeans(pindexNew, pindexBest.ChainTrust());
      forall b: BlockIndex | b.Child? && IsAncestor(b, pindexIntermediate)
        ensures b.pprev.ChainTrust() <= pindexBest.ChainTrust()
      {
        ParentTrust(b, pindexIntermediate);
      }
    }

    /** Connects the postponed blocks in turn and stops, without complaint, at the first that fails. */
    method ConnectPostponed(pindexNew: BlockIndex, vpindexSecondary: seq<BlockIndex>, verdict: Verdict)
      requires Durable() && IsAncestor(db.committedBest, pindexNew) && pindexNew in known
      requires vpindexSecondary == PathBack(db.committedBest, pindexNew)
      modifies this`nMoneySupply, this`pnext, db
      ensures Durable() && IsAncestor(old(db.committedBest), db.committedBest)
      ensures FarthestTip(verdict, old(db.committedBest), pindexNew, db.committedBest)
    {
      hide TreeOk, CountersMatch, Covered, Replay, LinksTo, Path, PathBack, IsAncestor, DistinctIds, CanReach,
        FarthestTip;
      ghost var start := db.committedBest;
      ReversePathBack(start, pindexNew);
      PathInTree(known, genesis, start, pindexNew);
      CanReachSelf(verdict, start);
      var forth := Reversed(vpindexSecondary);
      for i := 0 to |forth|
        invariant Durable() && db.committedBest == PathPoint(start, pindexNew, i)
        invariant CanReach(verdict, start, db.committedBest)
        invariant forall j :: 0 <= j < |forth| ==> forth[j] in known
      {
        PathSteps(start, pindexNew, i);
        PathPointBetween(start, pindexNew, i);
        CanReachStep(verdict, start, forth[i]);
        db.TxnBegin();
        var ok := SetBestChainInner(forth[i], verdict(forth[i]));
        if !ok {
          FarthestAt(verdict, start, pindexNew, db.committedBest, forth[i]);
          return;
        }
      }
      PathPointBetween(start, pindexNew, |forth|);
      FarthestHere(verdict, start, pindexNew);
    }

    /** The first case of SetBestChain: the block's parent is the best block in memory. */
    method AttachToBest(pindexNew: BlockIndex, verdict: Verdict) returns (ok: bool)
      requires db.Valid() && db.active && db.batch == [] && Describes(db.committed, db.committedBest)
      requires pindexNew in known && pindexNew.Child? && pindexNew.pprev == pindexBest
      requires IsAncestor(db.committedBest, pindexBest)
      modifies this`nMoneySupply, this`pnext, db
      ensures !ok ==> Durable() && db.committed == old(db.committed) && db.committedBest == old(db.committedBest)
      ensures old(db.committedBest) == pindexBest ==>
        && Intermediate(pindexNew, pindexBest.ChainTrust()) == pindexNew
        && (ok <==> CanReach(verdict, pindexBest, pindexNew))
        && (ok ==> Durable() && db.committedBest == pindexNew && FarthestTip(verdict, pindexBest, pindexNew, pindexNew))
      ensures old(db.committedBest) != pindexBest ==>
        && (ok <==> verdict(pindexNew) && AfterConnect(old(db.committed), pindexNew).Some?)
        && (ok ==> db.committed == AfterConnect(old(db.committed), pindexNew).value.ix && db.committedBest == pindexNew
                   && Replay(pindexNew) != Some(db.committed) && !Durable())
    {
      hide TreeOk, CountersMatch, Covered, Replay, LinksTo, DistinctIds, CanReach, FarthestTip, IsAncestor, Intermediate,
        BlockIndex.ChainTrust, AfterConnect;
      ghost var ix, d := db.committed, db.committedBest;
      ok := SetBestChainInner(pindexNew, verdict(pindexNew));
      if d == pindexBest {
        OneBlock(verdict, pindexBest, pindexNew);
        if ok {
          FarthestHere(verdict, pindexBest, pindexNew);
        }
      } else if ok {
        InTree(known, genesis, pindexNew);
        LacksParent(d, pindexBest, pindexNew, ix);
      }
    }

    /**
     * Makes pindexNew the best block. It succeeds exactly when the intermediate
     * block can be reached. When a postponed block behind that does not connect,
     * the code still records pindexNew as best: what is on disk stays consistent
     * and ends at the last block that could be reached, but memory and disk then
     * disagree. In that state a child of the best block in memory is connected to
     * an index that lacks its parent, and after that the disk is the replay of no
     * chain.
     */
    method SetBestChain(pindexNew: BlockIndex, verdict: Verdict) returns (ok: bool)
      requires pindexNew in known
      requires Valid() || (Behind() && pindexNew.Child? && pindexNew.pprev == pindexBest)
      modifies this, db
      ensures known == old(known)
      ensures old(Valid()) ==>
        && (ok <==> CanReach(verdict, old(pindexBest), Intermediate(pindexNew, old(pindexBest).ChainTrust())))
        && (!ok ==> Valid() && pindexBest == old(pindexBest) && db.committed == old(db.committed))
        && (ok ==> Durable() && Recorded() && pindexBest == pindexNew)
        && (ok ==> FarthestTip(verdict, old(pindexBest), pindexNew, db.committedBest))
        && (ok ==> (Valid() <==> CanReach(verdict, old(pindexBest), pindexNew)))
        && (ok ==> Valid() || Behind())
      ensures old(Behind()) ==>
        && (ok <==> verdict(pindexNew) && AfterConnect(old(db.committed), pindexNew).Some?)
        && (!ok ==> Behind() && pindexBest == old(pindexBest) && db.committed == old(db.committed))
        && (ok ==> Astray(pindexNew, old(db.committed)))
    {
      hide TreeOk, CountersMatch, Covered, Replay, LinksTo, Path, PathBack, DistinctIds, CanReach, FarthestTip,
        IsAncestor, Intermediate, BlockIndex.ChainTrust, AfterConnect;
      SelfAncestor(pindexBest);
      ghost var from, behind := pindexBest, Behind();
      IntermediateMeans(pindexNew, from.ChainTrust());
      db.TxnBegin();
      if pindexNew.Child? && pindexNew.pprev == pindexBest {
        ok := AttachToBest(pindexNew, verdict);
        if !ok {
          return;
        }
      } else {
        var pindexIntermediate, vpindexSecondary := Postpone(pindexNew);
        ok := Reorganize(pindexIntermediate, verdict);
        if !ok {
          db.TxnAbort();
          return;
        }
        ConnectPostponed(pindexNew, vpindexSecondary, verdict);
        MoreTrustIsNew(from, pindexIntermediate);
        FarthestBetween(verdict, from, pindexIntermediate, pindexNew, db.committedBest);
      }
      if !behind {
        FarthestIsEnd(verdict, from, pindexNew, db.committedBest);
        FarthestIsAncestor(verdict, from, pindexNew, db.committedBest);
      }
      pindexBest, nBestHeight, nBestChainTrust := pindexNew, pindexNew.Height(), pindexNew.ChainTrust();
      pblockindexFBBHLast := None;
    }

    /**
     * Memory and disk name the same best block, but the disk has the index of another chain with that one block on top,
     * which is the replay of no chain.
     */
    ghost predicate Astray(b: BlockIndex, ix: Index)
      reads this, db
    {
      && Recorded() && pindexBest == b && db.committedBest == b
      && AfterConnect(ix, b).Some? && db.committed == AfterConnect(ix, b).value.ix
      && Replay(b) != Some(db.committed) && !Durable()
    }

    /**
     * Adds an accepted block, and moves to it when its chain has the most trust.
     * If the outside checks always say the same about a block, no move leaves
     * memory and disk apart, and the node stays on the chain with the most trust
     * among all received chains that pass.
     */
    method AddToBlockIndex(pprev: BlockIndex, block: Block, verdict: Verdict) returns (ok: bool)
      requires Valid() || (Behind() && pprev == pindexBest)
      requires pprev in known && IdsOk(Child(pprev, block))
      modifies this, db
      ensures known == old(known) + {Child(pprev, block)}
      ensures old(Valid()) ==>
        var pindexNew, from := Child(pprev, block), old(pindexBest);
        && Durable()
        && pindexBest ==
           (if pindexNew !in old(known) && pindexNew.ChainTrust() > from.ChainTrust()
               && CanReach(verdict, from, Intermediate(pindexNew, from.ChainTrust()))
            then pindexNew else from)
        && (ok <==> pindexNew !in old(known) && (pindexNew.ChainTrust() > from.ChainTrust() ==> pindexBest == pindexNew))
        && (pindexBest != from ==> FarthestTip(verdict, from, pindexNew, db.committedBest))
        && (Valid() <==> pindexBest == from || CanReach(verdict, from, pindexNew))
        && (Valid() || Behind())
      // by the trust of the blocks behind a fork, whatever trust a chain is given
      ensures old(Valid()) && Child(pprev, block) in old(known) ==> pindexBest == old(pindexBest)
      ensures old(Valid()) && Child(pprev, block) !in old(known) ==>
        var pindexNew, from := Child(pprev, block), old(pindexBest);
        forall f :: IsLastCommonAncestor(f, from, pindexNew) ==>
          (pindexBest == pindexNew <==>
             && TrustSum(Path(f, pindexNew)) > TrustSum(Path(f, from))
             && CanReach(verdict, from, FirstBetter(Path(f, pindexNew), TrustSum(Path(f, from)))))
      ensures old(Valid()) && Child(pprev, block) !in old(known) && old(pindexBest).Child? && old(pindexBest).pprev == pprev ==>
        var pindexNew := Child(pprev, block);
        (pindexBest == pindexNew <==>
           block.nTrust > old(pindexBest).block.nTrust && verdict(pindexNew) && Replay(pindexNew).Some?)
      ensures old(Valid()) && old(Settled(verdict)) ==> Valid() && Settled(verdict)
      // behind the best block in memory, a child of it is judged by an index that lacks its parent
      ensures old(Behind()) ==>
        var pindexNew := Child(pprev, block);
        if pindexNew !in old(known) && block.nTrust > 0
           && verdict(pindexNew) && AfterConnect(old(db.committed), pindexNew).Some?
        then Astray(pindexNew, old(db.committed))
        else Behind() && pindexBest == old(pindexBest) && db.committed == old(db.committed)
    {
      hide TreeOk, CountersMatch, Covered, Replay, LinksTo, DistinctIds, CanReach, FarthestTip, IsAncestor, Intermediate,
        IdsOk, AfterConnect, Astray;
      var pindexNew := Child(pprev, block);
      InTree(known, genesis, pindexBest);
      if pindexNew in known {
        return false;
      }
      ghost var before, from, valid := known, pindexBest, Valid();
      TreeGrows(known, genesis, pindexNew);
      known := known + {pindexNew};
      ok := true;
      if pindexNew.ChainTrust() > nBestChainTrust {
        ok := SetBestChain(pindexNew, verdict);
      }
      if valid {
        ComparedByBlocks(from, pindexNew, verdict);
      }
      if valid && old(Settled(verdict)) {
        SettledStep(before, genesis, from, pindexNew, verdict);
      }
    }

    /** The best chain's block at a height, searched from genesis, the tip or the last result. */
    method FindBlockByHeight(nHeight: nat) returns (pblockindex: BlockIndex)
      requires Valid() && nHeight <= nBestHeight
      modifies this`pblockindexFBBHLast
      ensures Valid()
      ensures IsAncestor(pblockindex, pindexBest) && pblockindex.Height() == nHeight
      ensures forall b :: IsAncestor(b, pindexBest) && b.Height() == nHeight ==> b == pblockindex
    {
      RootIsAncestor(pindexBest);
      pblockindex := if nHeight < nBestHeight / 2 then genesis else pindexBest;
      if pblockindexFBBHLast.Some? &&
         AbsValue(nHeight - pblockindex.Height()) > AbsValue(nHeight - pblockindexFBBHLast.value.Height()) {
        pblockindex := pblockindexFBBHLast.value;
      }
      while pblockindex.Height() > nHeight
        invariant IsAncestor(pblockindex, pindexBest)
        decreases pblockindex.Height()
      {
        AncestorTransitive(pblockindex.pprev, pblockindex, pindexBest);
        pblockindex := pblockindex.pprev;
      }
      while pblockindex.Height() < nHeight
        invariant IsAncestor(pblockindex, pindexBest) && pblockindex.Height() <= nHeight
        decreases nHeight - pblockindex.Height()
      {
        LinksToAncestors(pindexBest, pblockindex);
        pblockindex := pnext[pblockindex];
      }
      pblockindexFBBHLast := Some(pblockindex);
      forall b | IsAncestor(b, pindexBest) && b.Height() == nHeight
        ensures b == pblockindex
      {
        UniqueAtHeight(b, pblockindex, pindexBest);
      }
    }

    predicate IsInMainChain(b: BlockIndex)
      reads this
    {
      b in pnext || b == pindexBest
    }

    /** The links single out the main chain: linked or best iff best or an ancestor of it. */
    lemma MainChainIsAncestry(b: BlockIndex)
      requires Valid()
      ensures IsInMainChain(b) <==> IsAncestor(b, pindexBest)
      ensures b in pnext <==> b != pindexBest && IsAncestor(b, pindexBest)
      ensures b in pnext ==> pnext[b].Child? && pnext[b].pprev == b && IsAncestor(pnext[b], pindexBest)
    {
      LinksToAncestors(pindexBest, b);
    }

    /** For the best block: its money counter is the sum of the unspent outputs on disk, and marks are spends. */
    lemma TipSupply()
      requires Valid() && pindexBest.Child?
      ensures pindexBest in nMoneySupply && nMoneySupply[pindexBest] == UnspentTotal(db.committed)
      ensures forall p: OutPoint :: p.hash in db.committed && p.n < |db.committed[p.hash].vSpent| ==>
        && (db.committed[p.hash].vSpent[p.n].Some? <==> exists pos :: InChain(pindexBest, pos) && SpendsAt(pos, p))
        && forall pos :: InChain(pindexBest, pos) && SpendsAt(pos, p) ==>
             db.committed[p.hash].vSpent[p.n] == Some(pos) && SpendsOnce(TxAt(pos).value, p)
    {
      hide InChain, SpendsOnce, Replay, UnspentTotal;
      InTree(known, genesis, pindexBest);
      SupplyIsUnspentTotal(pindexBest);
      forall p: OutPoint | p.hash in db.committed && p.n < |db.committed[p.hash].vSpent|
        ensures db.committed[p.hash].vSpent[p.n].Some? <==> exists pos :: InChain(pindexBest, pos) && SpendsAt(pos, p)
        ensures forall pos :: InChain(pindexBest, pos) && SpendsAt(pos, p) ==>
          db.committed[p.hash].vSpent[p.n] == Some(pos) && SpendsOnce(TxAt(pos).value, p)
      {
        SpentIffSpentOnce(pindexBest, p);
      }
    }
  }
}
