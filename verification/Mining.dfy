/** A node that assembles a block and adds it to its own chain (src/miner.cpp:118-395, src/main.cpp:2720-2800). */
module Mining {
  import opened Common
  import opened Transactions
  import opened TxIndexing
  import opened SpendHistory
  import opened TxIds
  import opened ChainLinks
  import opened ChainMoves
  import opened ChainState
  import opened BlockAssembly
  import opened BlockSelection
  import opened BlockAccepted

  /** The positions in the index are in blocks of the chain. */
  lemma StoredEarlier(best: BlockIndex, bi: BlockIndex)
    requires Replay(best).Some? && DistinctIds(best) && bi.Child? && bi.pprev == best
    ensures forall h :: h in Replay(best).value ==> Replay(best).value[h].pos.bi != bi
  {
    ReplayMarksExact(best);
    var ix := Replay(best).value;
    forall h | h in ix
      ensures ix[h].pos.bi != bi
    {
      InChainIsAncestor(best, ix[h].pos);
      AncestorHeight(ix[h].pos.bi, best);
    }
  }

  /** A block of new, distinct ids keeps ids fine. */
  lemma NewIdsOk(best: BlockIndex, b: Block)
    requires IdsOk(best) && Replay(best).Some? && FreshIds(Replay(best).value, b) && DistinctTxs(b.vtx)
    ensures IdsOk(Child(best, b))
  {
    ReplayKeys(best);
    NewIdsInjective(best, b);
  }

  lemma NewIdsInjective(best: BlockIndex, b: Block)
    requires InjectiveIds(best) && Replay(best).Some? && FreshIds(Replay(best).value, b) && DistinctTxs(b.vtx)
    ensures InjectiveIds(Child(best, b))
  {
    hide FreshIds, Replay, ChainIds;
    var bi := Child(best, b);
    forall p, q | InChain(bi, p) && InChain(bi, q) && SameId(p, q)
      ensures TxAt(p) == TxAt(q)
    {
      OldOrNew(best, b, p);
      OldOrNew(best, b, q);
      if !InChain(best, p) {
        assert b.vtx[p.i].id == b.vtx[q.i].id;
      }
    }
  }

  /** The id of a transaction is one of the old chain iff its position is. */
  lemma OldOrNew(best: BlockIndex, b: Block, p: TxPos)
    requires InChain(Child(best, b), p) && Replay(best).Some? && FreshIds(Replay(best).value, b)
    ensures TxAt(p).Some? && (InChain(best, p) || p.bi == Child(best, b))
    ensures TxAt(p).value.id in ChainIds(best) <==> InChain(best, p)
  {
    ReplayKeys(best);
    if InChain(best, p) {
      IdOfChain(best, p);
    } else {
      assert TxAt(p).value in b.vtx;
    }
  }

  lemma {:induction false} IdOfChain(b: BlockIndex, p: TxPos)
    requires InChain(b, p)
    ensures TxAt(p).Some? && TxAt(p).value.id in ChainIds(b)
  {
    if p.bi == b && TxAt(p).Some? {
      assert TxAt(p).value in b.block.vtx;
    } else {
      IdOfChain(b.pprev, p);
    }
  }

  lemma SelectionIds(s: Setting, txs: seq<Tx>)
    requires s.PoolOk() && Candidates(s, txs)
    ensures forall tx <- txs :: tx.id in s.pool && tx.id !in s.db
  {
    forall tx | tx in txs
      ensures tx.id in s.pool && tx.id !in s.db
    {
      var k :| 0 <= k < |txs| && txs[k] == tx;
      assert s.Candidate(txs[k]);
    }
  }

  /** The coinbase for a block with these fees: new, and within subsidy and fees. */
  ghost predicate CoinBaseFine(s: Setting, coinbase: Tx, nFees: int) {
    && coinbase.IsCoinBase() && coinbase.id !in s.db && coinbase.id !in s.pool
    && OutputSum(coinbase.vout) <= WorkSubsidy(s.pindexPrev.Height() + 1) + nFees
  }

  /**
   * Assembles a work block on the best chain and adds it. It becomes the best block unless it was received before or
   * fails a check that needs no context or that is outside this model.
   */
  method MineBlock(node: Chain, s: Setting, coinbaseFor: int -> Tx, nTime: nat, nTrust: nat,
                   clock: nat -> nat, verdict: Verdict)
    returns (vtx: seq<Tx>, ghost picks: seq<TxPriority>)
    requires node.Valid() && s.PoolOk() && s.db == node.db.committed && s.pindexPrev == node.pindexBest
    requires nTrust > 0 && forall nFees: nat :: CoinBaseFine(s, coinbaseFor(nFees), nFees)
    modifies node, node.db
    ensures node.Valid() && vtx != []
    ensures var bi := Child(old(node.pindexBest), Block(vtx, nTime, nTrust));
      && Assembled(s, vtx[0], vtx[1..], bi) && vtx[0] == coinbaseFor(FeeSum(s, vtx[1..]))
      && FullRun(s, coinbaseFor(0).nTime, clock, picks)
      && vtx[1..] == Run(s, coinbaseFor(0).nTime, clock, picks).txs
      && node.known == old(node.known) + {bi}
      && node.pindexBest ==
         if bi !in old(node.known) && CheckBlock(bi.block) && verdict(bi) then bi else old(node.pindexBest)
  {
    hide TreeOk, CanReach, FarthestTip, Intermediate, IdsOk, Replay, CheckBlock, ParentsFirst, AllChecked, FeeSum,
      DistinctOutPoints, AllInputs, WorkSubsidy, OutputSum, Candidates, Ids, Chain.Settled, SizeSum, SigOpSum, LinksTo,
      CountersMatch, Covered, FullRun, Run;
    var best := node.pindexBest;
    var nFees;
    vtx, nFees, picks := CreateNewBlock(s, coinbaseFor(0), clock);
    var coinbase := coinbaseFor(nFees);
    FeesNotNegative(s, vtx[1..]);
    assert CoinBaseFine(s, coinbase, nFees);
    var txs := vtx[1..];
    vtx := vtx[0 := coinbase];
    assert vtx[1..] == txs;
    var bi := Child(best, Block(vtx, nTime, nTrust));
    SelectionIds(s, txs);
    BlockIds(node, s, coinbase, txs, bi);
    InTree(node.known, node.genesis, best);
    StoredEarlier(best, bi);
    AssembledReplays(s, coinbase, bi, txs);
    OneBlock(verdict, best, bi);
    var ok := node.AddToBlockIndex(best, bi.block, verdict);
  }

  lemma {:induction false} FeesNotNegative(s: Setting, txs: seq<Tx>)
    requires Candidates(s, txs) && AllChecked(s, txs)
    ensures FeeSum(s, txs) >= 0
  {
    if txs != [] {
      FeesNotNegative(s, txs[..|txs| - 1]);
    }
  }

  lemma BlockIds(node: Chain, s: Setting, coinbase: Tx, txs: seq<Tx>, bi: BlockIndex)
    requires node.Valid() && s.db == node.db.committed && bi.Child? && bi.pprev == node.pindexBest
    requires bi.block.vtx == [coinbase] + txs && DistinctTxs(txs)
    requires coinbase.id !in s.db && coinbase.id !in s.pool
    requires forall tx <- txs :: tx.id in s.pool && tx.id !in s.db
    ensures IdsOk(bi) && coinbase.id !in Ids(txs)
  {
    hide IdsOk, Replay;
    forall i, j | 0 <= i < j < |bi.block.vtx|
      ensures bi.block.vtx[i].id != bi.block.vtx[j].id
    {
      assert bi.block.vtx[j] == txs[j - 1] && txs[j - 1] in txs;
      if i > 0 {
        assert bi.block.vtx[i] == txs[i - 1];
      }
    }
    NewIdsOk(node.pindexBest, bi.block);
    forall id | id in Ids(txs)
      ensures id != coinbase.id
    {
      var k: nat :| k < |txs| && txs[k].id == id;
      assert txs[k] in txs;
    }
  }

  /** The assembled block extends the replayed chain exactly when it passes the checks that need no context. */
  lemma AssembledReplays(s: Setting, coinbase: Tx, bi: BlockIndex, txs: seq<Tx>)
    requires Assembled(s, coinbase, txs, bi) && Replay(bi.pprev) == Some(s.db)
    requires OutputSum(coinbase.vout) <= WorkSubsidy(bi.Height()) + FeeSum(s, txs)
    ensures Replay(bi).Some? <==> CheckBlock(bi.block)
  {
    hide CheckBlock, ConnectTxs, FeeSum, Candidates, DistinctTxs, ParentsFirst, AllChecked, AllInputs, Ids;
    ReplayStep(bi);
    if CheckBlock(bi.block) {
      AssembledBlockAccepted(s, coinbase, bi, txs);
    }
  }
}
