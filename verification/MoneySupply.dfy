/** Money is conserved: the supply counter is the sum of the unspent outputs, and it is bounded. */
module MoneySupply {
  import opened Common
  import opened Transactions
  import opened TxIndexing
  import opened SpendHistory

  // ---------- the sum of all unspent outputs ----------

  ghost function UnspentOf(vout: seq<TxOut>, vSpent: seq<Option<TxPos>>, k: nat): int
    requires k <= |vout| && k <= |vSpent|
  {
    if k == 0 then 0
    else UnspentOf(vout, vSpent, k - 1) + if vSpent[k - 1].None? then vout[k - 1].nValue else 0
  }

  ghost function EntryTotal(e: TxIndex): int {
    if TxAt(e.pos).Some? && |TxAt(e.pos).value.vout| == |e.vSpent| then
      UnspentOf(TxAt(e.pos).value.vout, e.vSpent, |e.vSpent|)
    else 0
  }

  ghost function TotalOver(ix: Index, keys: set<TxId>): int
    requires keys <= ix.Keys
  {
    if keys == {} then 0
    else var k :| k in keys; EntryTotal(ix[k]) + TotalOver(ix, keys - {k})
  }

  /** The sum of all unspent outputs in the index. */
  ghost function UnspentTotal(ix: Index): int {
    TotalOver(ix, ix.Keys)
  }

  lemma {:induction false} TotalTakeOut(ix: Index, keys: set<TxId>, h: TxId)
    requires keys <= ix.Keys && h in keys
    ensures TotalOver(ix, keys) == EntryTotal(ix[h]) + TotalOver(ix, keys - {h})
    decreases keys
  {
    var k :| k in keys && TotalOver(ix, keys) == EntryTotal(ix[k]) + TotalOver(ix, keys - {k});
    if k != h {
      TotalTakeOut(ix, keys - {k}, h);
      TotalTakeOut(ix, keys - {h}, k);
      assert keys - {k} - {h} == keys - {h} - {k};
    }
  }

  lemma {:induction false} TotalFrame(ix: Index, ix': Index, keys: set<TxId>)
    requires keys <= ix.Keys && keys <= ix'.Keys
    requires forall h :: h in keys ==> EntryTotal(ix[h]) == EntryTotal(ix'[h])
    ensures TotalOver(ix, keys) == TotalOver(ix', keys)
    decreases keys
  {
    if keys != {} {
      var k :| k in keys;
      TotalTakeOut(ix, keys, k);
      TotalTakeOut(ix', keys, k);
      TotalFrame(ix, ix', keys - {k});
    }
  }

  /** Replacing or adding one entry changes the total by the difference of the entries. */
  lemma TotalUpdate(ix: Index, h: TxId, e: TxIndex)
    ensures UnspentTotal(ix[h := e]) == UnspentTotal(ix) - (if h in ix then EntryTotal(ix[h]) else 0) + EntryTotal(e)
  {
    var ix', rest := ix[h := e], ix.Keys - {h};
    assert ix'.Keys - {h} == rest;
    TotalTakeOut(ix', ix'.Keys, h);
    TotalFrame(ix, ix', rest);
    if h in ix {
      TotalTakeOut(ix, ix.Keys, h);
    } else {
      assert rest == ix.Keys;
    }
  }

  lemma {:induction false} UnspentOfUpdate(vout: seq<TxOut>, vSpent: seq<Option<TxPos>>, n: nat, pos: TxPos, k: nat)
    requires k <= |vout| && k <= |vSpent| && n < |vSpent| && vSpent[n].None? && n < |vout|
    ensures UnspentOf(vout, vSpent[n := Some(pos)], k) ==
            UnspentOf(vout, vSpent, k) - if n < k then vout[n].nValue else 0
  {
    if k > 0 {
      UnspentOfUpdate(vout, vSpent, n, pos, k - 1);
    }
  }

  lemma {:induction false} FreshTotal(vout: seq<TxOut>, k: nat)
    requires k <= |vout|
    ensures UnspentOf(vout, seq(|vout|, _ => None), k) == OutputSum(vout[..k])
  {
    if k > 0 {
      FreshTotal(vout, k - 1);
      assert vout[..k][..k - 1] == vout[..k - 1];
    }
  }

  /** Entries have one spent slot per output. */
  ghost predicate WellSized(ix: Index) {
    forall h :: h in ix ==> TxAt(ix[h].pos).Some? && |TxAt(ix[h].pos).value.vout| == |ix[h].vSpent|
  }

  lemma {:induction false} MarkSpentTotal(ix: Index, vin: seq<OutPoint>, pos: TxPos)
    requires WellSized(ix) && AllFound(ix, vin) && DistinctOutPoints(vin)
    requires forall p <- vin :: Unspent(ix, p)
    ensures UnspentTotal(MarkSpent(ix, vin, pos)) == UnspentTotal(ix) - InputSum(ix, vin)
  {
    if vin == [] {
      MarkNone(ix, pos);
    } else {
      var front, p := vin[..|vin| - 1], vin[|vin| - 1];
      assert vin == front + [p] && p !in front;
      assert Found(ix, p) && Unspent(ix, p);
      assert forall q <- front :: q in vin;
      MarkSpentTotal(ix, front, pos);
      MarkOne(ix, front, p, pos);
      var m := MarkSpent(ix, front, pos);
      assert OutPoint(p.hash, p.n) == p;
      var e := m[p.hash];
      var e' := e.(vSpent := e.vSpent[p.n := Some(pos)]);
      UnspentOfUpdate(TxAt(e.pos).value.vout, e.vSpent, p.n, pos, |e.vSpent|);
      TotalUpdate(m, p.hash, e');
    }
  }

  /** The counter of one transaction: what it creates less what it spends. */
  lemma {:induction false} ConnectTxTotal(pr: Progress, tx: Tx, pos: TxPos)
    requires WellSized(pr.ix) && tx.id !in pr.ix && TxAt(pos) == Some(tx) && ConnectTx(pr, tx, pos).Some?
    ensures var pr' := ConnectTx(pr, tx, pos).value;
      && WellSized(pr'.ix)
      && UnspentTotal(pr'.ix) - UnspentTotal(pr.ix) ==
         (pr'.nValueOut - pr.nValueOut) - (pr'.nValueIn - pr.nValueIn)
  {
    var e := FreshEntry(pos, |tx.vout|);
    FreshTotal(tx.vout, |tx.vout|);
    assert tx.vout[..|tx.vout|] == tx.vout;
    if tx.IsCoinBase() {
      TotalUpdate(pr.ix, tx.id, e);
    } else {
      MarkSpentTotal(pr.ix, tx.vin, pos);
      TotalUpdate(MarkSpent(pr.ix, tx.vin, pos), tx.id, e);
    }
  }

  lemma {:induction false} ConnectTxsTotal(ix: Index, bi: BlockIndex, k: nat)
    requires k <= |bi.block.vtx| && DistinctTxs(bi.block.vtx) && FreshIds(ix, bi.block) && WellSized(ix)
    requires ConnectTxs(ix, bi, k).Some?
    ensures var pr := ConnectTxs(ix, bi, k).value;
      WellSized(pr.ix) && UnspentTotal(pr.ix) == UnspentTotal(ix) + pr.nValueOut - pr.nValueIn
  {
    if k > 0 {
      hide UnspentTotal, WellSized, DistinctTxs, FreshIds, ConnectTx;
      ConnectTxsTotal(ix, bi, k - 1);
      NotIndexedYet(ix, bi, k);
      ConnectTxTotal(ConnectTxs(ix, bi, k - 1).value, bi.block.vtx[k - 1], TxPos(bi, k - 1));
    }
  }

  // ---------- the counter ----------

  /** The money-supply counter of a block that connects: its parent's plus what the block adds. */
  ghost function Supply(bi: BlockIndex): int
    requires Replay(bi).Some?
  {
    if bi.Genesis? then 0
    else
      var pr := AfterConnect(Replay(bi.pprev).value, bi).value;
      Supply(bi.pprev) + pr.nValueOut - pr.nValueIn
  }

  lemma {:induction false} ReplayWellSized(bi: BlockIndex)
    requires Replay(bi).Some? && DistinctIds(bi)
    ensures WellSized(Replay(bi).value)
  {
    ReplayMarksExact(bi);
    forall h | h in Replay(bi).value
      ensures EntryOf(Replay(bi).value[h], h)
    {
    }
  }

  /** The counter is the sum of all unspent outputs in the index. */
  lemma {:induction false} SupplyIsUnspentTotal(bi: BlockIndex)
    requires Replay(bi).Some? && DistinctIds(bi)
    ensures Supply(bi) == UnspentTotal(Replay(bi).value)
  {
    if bi.Child? {
      SupplyIsUnspentTotal(bi.pprev);
      ReplayKeys(bi.pprev);
      ReplayWellSized(bi.pprev);
      ConnectTxsTotal(Replay(bi.pprev).value, bi, |bi.block.vtx|);
    }
  }

  // ---------- the bound ----------

  /** What the coinstakes among the first k transactions pay out beyond what they take in. */
  ghost function StakeRewards(ix: Index, bi: BlockIndex, k: nat): int
    requires k <= |bi.block.vtx| && ConnectTxs(ix, bi, k).Some?
  {
    if k == 0 then 0
    else
      var tx := bi.block.vtx[k - 1];
      StakeRewards(ix, bi, k - 1) +
      if tx.IsCoinStake() then OutputSum(tx.vout) - InputSum(ConnectTxs(ix, bi, k - 1).value.ix, tx.vin) else 0
  }

  /** How the totals add up: new money is the coinbase plus the rewards of all coinstakes, less the fees. */
  lemma {:induction false} NewMoney(ix: Index, bi: BlockIndex, k: nat)
    requires 0 < k <= |bi.block.vtx| && CheckBlock(bi.block)
    requires ConnectTxs(ix, bi, k).Some?
    ensures var pr := ConnectTxs(ix, bi, k).value;
      pr.nValueOut - pr.nValueIn == OutputSum(bi.block.vtx[0].vout) + StakeRewards(ix, bi, k) - pr.nFees
  {
    if k == 1 {
      assert ConnectTxs(ix, bi, 0) == Some(Start(ix));
      assert StakeRewards(ix, bi, 0) == 0;
    } else {
      NewMoney(ix, bi, k - 1);
    }
  }

  /** A proof-of-stake block has one coinstake, the one whose reward is checked. */
  lemma {:induction false} RewardIsChecked(ix: Index, bi: BlockIndex, k: nat)
    requires k <= |bi.block.vtx| && CheckBlock(bi.block) && ConnectTxs(ix, bi, k).Some?
    requires bi.block.IsProofOfStake()
    ensures StakeRewards(ix, bi, k) == ConnectTxs(ix, bi, k).value.nStakeReward
  {
    hide InputsConnect, CheckTransaction, MarkSpent, FreshEntry, DistinctTxs;
    if k > 0 {
      RewardIsChecked(ix, bi, k - 1);
      if k == 2 {
        assert ConnectTxs(ix, bi, 0) == Some(Start(ix)) && StakeRewards(ix, bi, 0) == 0;
      }
    }
  }

  /** What a block's coinstakes mint without a check: all of them in a work block, none in a stake block. */
  ghost function StrayRewards(bi: BlockIndex): int
    requires bi.Child? && Replay(bi).Some?
  {
    if bi.block.IsProofOfStake() then 0 else StakeRewards(Replay(bi.pprev).value, bi, |bi.block.vtx|)
  }

  ghost function FeesOf(bi: BlockIndex): int
    requires bi.Child? && Replay(bi).Some?
  {
    AfterConnect(Replay(bi.pprev).value, bi).value.nFees
  }

  /**
   * Connecting a block raises the supply by at most the subsidy of its height exactly when it is a stake block or
   * its coinbase, together with the rewards of its coinstakes, stays within subsidy and fees. The code compares the
   * coinbase alone with subsidy and fees.
   */
  lemma MintsAtMostSubsidyIff(bi: BlockIndex)
    requires bi.Child? && Replay(bi).Some?
    ensures Supply(bi) - Supply(bi.pprev) <= Subsidy(bi)
       <==> bi.block.IsProofOfStake()
            || OutputSum(bi.block.vtx[0].vout) + StrayRewards(bi) <= WorkSubsidy(bi.Height()) + FeesOf(bi)
    ensures Supply(bi) - Supply(bi.pprev) <= Subsidy(bi) + StrayRewards(bi)
  {
    var ix := Replay(bi.pprev).value;
    NewMoney(ix, bi, |bi.block.vtx|);
    if bi.block.IsProofOfStake() {
      RewardIsChecked(ix, bi, |bi.block.vtx|);
      assert bi.block.vtx[0].vout[..0] == [];
      assert OutputSum(bi.block.vtx[0].vout) == 0;
    }
  }

  /** No coinstake outside the second place: the other places are checked in proof-of-stake blocks only. */
  ghost predicate NoStrayCoinStake(b: Block) {
    forall i :: 2 <= i < |b.vtx| ==> !b.vtx[i].IsCoinStake()
  }

  ghost predicate NoStrayCoinStakes(bi: BlockIndex) {
    bi.Genesis? || (NoStrayCoinStake(bi.block) && NoStrayCoinStakes(bi.pprev))
  }

  lemma {:induction false} NoReward(ix: Index, bi: BlockIndex, k: nat)
    requires k <= |bi.block.vtx| && ConnectTxs(ix, bi, k).Some?
    requires CheckBlock(bi.block) && NoStrayCoinStake(bi.block) && !bi.block.IsProofOfStake()
    ensures StakeRewards(ix, bi, k) == 0
  {
    if k > 0 {
      NoReward(ix, bi, k - 1);
    }
  }

  /** Without stray coinstakes no block raises the supply by more than the subsidy of its height. */
  lemma BlockMintsAtMostSubsidy(bi: BlockIndex)
    requires bi.Child? && Replay(bi).Some? && NoStrayCoinStake(bi.block)
    ensures StrayRewards(bi) == 0 && Supply(bi) - Supply(bi.pprev) <= Subsidy(bi)
  {
    MintsAtMostSubsidyIff(bi);
    if !bi.block.IsProofOfStake() {
      NoReward(Replay(bi.pprev).value, bi, |bi.block.vtx|);
    }
  }

  /** The most that the first h blocks after genesis can mint, in hundredths of a coin. */
  function MaxMinted(h: nat): int {
    if h < 2 then h * 100
    else if h < 200 then 10_000_100 + (h - 2) * 100
    else if h < 262_800 then 10_019_800 + (h - 199) * 340
    else if h < 1_314_000 then 99_303_800 + (h - 262_799) * 95
    else if h < 2_628_000 then 199_167_800 + (h - 1_313_999) * 75
    else if h < 5_256_000 then 297_717_800 + (h - 2_627_999) * 40
    else 402_837_800 + (h - 5_255_999) * 12
  }

  /** It grows by exactly the larger subsidy of the height, and from the third block on there is only one. */
  lemma MaxMintedStep(h: nat)
    requires 0 < h < 13_140_000
    ensures (MaxMinted(h) - MaxMinted(h - 1)) * 1_000_000 == if h == 2 then WorkSubsidy(h) else StakeSubsidy(h)
    ensures h < 2 ==> WorkSubsidy(h) == 0
    ensures h == 2 ==> StakeSubsidy(h) == 1 * COIN
    ensures h > 2 ==> WorkSubsidy(h) == StakeSubsidy(h)
  {
  }

  /** What the stray coinstakes of a chain have minted. */
  ghost function StrayMinted(bi: BlockIndex): int
    requires Replay(bi).Some?
  {
    if bi.Genesis? then 0 else StrayMinted(bi.pprev) + StrayRewards(bi)
  }

  /** On every chain the supply is at most the subsidies so far and what stray coinstakes have minted. */
  lemma {:induction false} SupplyAtMostMinted(bi: BlockIndex)
    requires Replay(bi).Some? && bi.Height() < 13_140_000
    ensures Supply(bi) <= MaxMinted(bi.Height()) * 1_000_000 + StrayMinted(bi)
    ensures NoStrayCoinStakes(bi) ==> StrayMinted(bi) == 0
  {
    if bi.Child? {
      SupplyAtMostMinted(bi.pprev);
      MintsAtMostSubsidyIff(bi);
      MaxMintedStep(bi.Height());
      if NoStrayCoinStakes(bi) {
        BlockMintsAtMostSubsidy(bi);
      }
    }
  }

  /**
   * Below height 13,140,000 and without stray coinstakes there are at most 4,974,458 coins, fewer than
   * MAX_MONEY, however the blocks divide into work and stake. With them there may be any number more.
   */
  lemma SupplyBelowMaxMoney(bi: BlockIndex)
    requires Replay(bi).Some? && DistinctIds(bi) && bi.Height() < 13_140_000
    ensures UnspentTotal(Replay(bi).value) <= 4_974_458 * COIN + StrayMinted(bi)
    ensures NoStrayCoinStakes(bi) ==> UnspentTotal(Replay(bi).value) <= 4_974_458 * COIN < MAX_MONEY
  {
    SupplyIsUnspentTotal(bi);
    SupplyAtMostMinted(bi);
    assert MaxMinted(bi.Height()) <= 497_445_800;
  }
}
