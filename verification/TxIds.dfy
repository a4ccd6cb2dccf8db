/**
 * Where distinct transaction ids come from. Ids are hashes, so equal ids mean equal transactions; a transaction that
 * spends something cannot be in a chain twice, because its inputs are spent already. Only coinbases could repeat.
 */
module TxIds {
  import opened Common
  import opened Transactions
  import opened TxIndexing
  import opened SpendHistory

  /** Within the chain, transactions with one id are one transaction. */
  ghost predicate InjectiveIds(bi: BlockIndex) {
    forall p, q :: InChain(bi, p) && InChain(bi, q) && SameId(p, q) ==> TxAt(p) == TxAt(q)
  }

  ghost predicate SameId(p: TxPos, q: TxPos) {
    TxAt(p).Some? && TxAt(q).Some? && TxAt(p).value.id == TxAt(q).value.id
  }

  /** No coinbase of the chain repeats the id of an earlier transaction. */
  ghost predicate CoinBasesFresh(bi: BlockIndex) {
    bi.Genesis?
    || (CoinBasesFresh(bi.pprev) && forall tx <- bi.block.vtx :: tx.IsCoinBase() ==> tx.id !in ChainIds(bi.pprev))
  }

  /** What was spent before the block stays spent while the block connects, unless its entry is replaced. */
  lemma {:induction false} StaysSpent(ix: Index, bi: BlockIndex, k: nat, p: OutPoint)
    requires k <= |bi.block.vtx| && ConnectTxs(ix, bi, k).Some?
    requires p.hash in ix && p.n < |ix[p.hash].vSpent| && ix[p.hash].vSpent[p.n].Some?
    requires forall i :: 0 <= i < k ==> bi.block.vtx[i].id != p.hash
    ensures var m := ConnectTxs(ix, bi, k).value.ix;
      p.hash in m && p.n < |m[p.hash].vSpent| && m[p.hash].vSpent[p.n].Some?
  {
    if k > 0 {
      StaysSpent(ix, bi, k - 1, p);
    }
  }

  /** A transaction of the chain has a spent first input. */
  lemma AlreadySpent(bi: BlockIndex, tx: Tx)
    requires Replay(bi).Some? && DistinctIds(bi) && tx.id in ChainIds(bi) && !tx.IsCoinBase() && tx.vin != []
    requires forall q :: InChain(bi, q) && TxAt(q).Some? && TxAt(q).value.id == tx.id ==> TxAt(q) == Some(tx)
    ensures exists pos :: MarkedBy(Replay(bi).value, tx.vin[0], pos)
  {
    ReplayKeys(bi);
    ReplayMarksExact(bi);
    var ix := Replay(bi).value;
    var pos := ix[tx.id].pos;
    assert EntryOf(ix[tx.id], tx.id) && InChain(bi, pos);
    assert SpendsAt(pos, tx.vin[0]);
    assert MarkedBy(ix, tx.vin[0], pos);
  }

  lemma FailsOrConnects(ix: Index, bi: BlockIndex, k: nat)
    requires k < |bi.block.vtx| && ConnectTxs(ix, bi, |bi.block.vtx|).Some?
    ensures ConnectTxs(ix, bi, k).Some?
    ensures ConnectTx(ConnectTxs(ix, bi, k).value, bi.block.vtx[k], TxPos(bi, k)).Some?
  {
    if ConnectTxs(ix, bi, k + 1).None? {
      FailurePropagates(ix, bi, k + 1, |bi.block.vtx|);
    }
  }

  /** A transaction that connects takes nothing that was spent before the block. */
  lemma FirstInputFree(ix: Index, bi: BlockIndex, k: nat)
    requires k < |bi.block.vtx| && ConnectTxs(ix, bi, |bi.block.vtx|).Some?
    requires forall i :: 0 <= i < k ==> bi.block.vtx[i].id !in ix
    requires !bi.block.vtx[k].IsCoinBase() && bi.block.vtx[k].vin != []
    ensures forall pos :: !MarkedBy(ix, bi.block.vtx[k].vin[0], pos)
  {
    hide InputAcceptable, FreshEntry, MarkSpent, InputSum, OutputSum, ConnectTxs;
    FailsOrConnects(ix, bi, k);
    var pr, tx := ConnectTxs(ix, bi, k).value, bi.block.vtx[k];
    assert InputsConnect(pr.ix, tx, bi);
    assert tx.vin[0] in tx.vin;
    assert Unspent(pr.ix, tx.vin[0]);
    forall pos
      ensures !MarkedBy(ix, tx.vin[0], pos)
    {
      if MarkedBy(ix, tx.vin[0], pos) {
        StaysSpent(ix, bi, k, tx.vin[0]);
        assert false;
      }
    }
  }

  lemma VinsNotEmpty(bi: BlockIndex, k: nat)
    requires bi.Child? && Replay(bi).Some? && k < |bi.block.vtx|
    ensures bi.block.vtx[k].vin != []
  {
    assert bi.block.vtx[k] in bi.block.vtx;
  }

  lemma {:induction false} FirstFresh(bi: BlockIndex, k: nat)
    requires bi.Child? && Replay(bi).Some? && DistinctIds(bi.pprev) && InjectiveIds(bi) && CoinBasesFresh(bi)
    requires k <= |bi.block.vtx|
    ensures forall i :: 0 <= i < k ==> bi.block.vtx[i].id !in ChainIds(bi.pprev)
  {
    hide ConnectTxs, MarkedBy, CheckBlock, DistinctIds, ChainIds;
    if k > 0 {
      FirstFresh(bi, k - 1);
      var ix, tx := Replay(bi.pprev).value, bi.block.vtx[k - 1];
      assert tx in bi.block.vtx;
      ReplayKeys(bi.pprev);
      VinsNotEmpty(bi, k - 1);
      if !tx.IsCoinBase() {
        FirstInputFree(ix, bi, k - 1);
        if tx.id in ChainIds(bi.pprev) {
          OnlyOne(bi, k - 1);
          AlreadySpent(bi.pprev, tx);
          assert false;
        }
      }
    }
  }

  /** Transactions of the earlier chain with the id of a transaction of the block are that transaction. */
  lemma OnlyOne(bi: BlockIndex, k: nat)
    requires bi.Child? && k < |bi.block.vtx| && InjectiveIds(bi)
    ensures forall q :: InChain(bi.pprev, q) && TxAt(q).Some? && TxAt(q).value.id == bi.block.vtx[k].id ==>
              TxAt(q) == Some(bi.block.vtx[k])
  {
    forall q | InChain(bi.pprev, q) && TxAt(q).Some? && TxAt(q).value.id == bi.block.vtx[k].id
      ensures TxAt(q) == Some(bi.block.vtx[k])
    {
      assert InChain(bi, q) && InChain(bi, TxPos(bi, k)) && SameId(q, TxPos(bi, k));
    }
  }

  /** Distinct coinbases make all ids of a chain that connects distinct. */
  lemma {:induction false} IdsAreDistinct(bi: BlockIndex)
    requires Replay(bi).Some? && InjectiveIds(bi) && CoinBasesFresh(bi)
    ensures DistinctIds(bi)
  {
    if bi.Child? {
      assert InjectiveIds(bi.pprev) by {
        assert forall p :: InChain(bi.pprev, p) ==> InChain(bi, p);
      }
      IdsAreDistinct(bi.pprev);
      FirstFresh(bi, |bi.block.vtx|);
    }
  }
}
