/** What the spent marks of a replayed index say about the chain's transactions. */
module SpendHistory {
  import opened Common
  import opened Transactions
  import opened TxIndexing
  import opened ChainLinks

  /** pos is the position of a transaction of the chain ending in bi, genesis excluded. */
  ghost predicate InChain(bi: BlockIndex, pos: TxPos) {
    bi.Child? && ((pos.bi == bi && TxAt(pos).Some?) || InChain(bi.pprev, pos))
  }

  ghost predicate SpendsAt(pos: TxPos, p: OutPoint) {
    TxAt(pos).Some? && TxAt(pos).value.Spends(p)
  }

  ghost predicate MarkedBy(ix: Index, p: OutPoint, pos: TxPos) {
    p.hash in ix && p.n < |ix[p.hash].vSpent| && ix[p.hash].vSpent[p.n] == Some(pos)
  }

  /**
   * The marks of ix are exactly the spends by the transactions at `done`, and
   * every entry describes one of them.
   */
  ghost predicate MarksExact(ix: Index, done: iset<TxPos>) {
    && (forall pos, p :: pos in done && SpendsAt(pos, p) ==> MarkedBy(ix, p, pos))
    && (forall pos, p :: MarkedBy(ix, p, pos) ==> pos in done && SpendsAt(pos, p))
    && (forall h :: h in ix ==> EntryOf(ix[h], h) && ix[h].pos in done)
  }

  ghost predicate EntryOf(e: TxIndex, h: TxId) {
    TxAt(e.pos).Some? && TxAt(e.pos).value.id == h && |e.vSpent| == |TxAt(e.pos).value.vout|
  }

  lemma {:induction false} ConnectTxKeepsMarks(
    pr: Progress, tx: Tx, pos: TxPos, done: iset<TxPos>, done': iset<TxPos>)
    requires TxAt(pos) == Some(tx) && tx.id !in pr.ix
    requires MarksExact(pr.ix, done) && ConnectTx(pr, tx, pos).Some? && done' == done + iset{pos}
    ensures MarksExact(ConnectTx(pr, tx, pos).value.ix, done')
  {
    var ix := ConnectTx(pr, tx, pos).value.ix;
    forall q, p | q in done' && SpendsAt(q, p)
      ensures MarkedBy(ix, p, q)
    {
      if q in done {
        assert MarkedBy(pr.ix, p, q);
        assert OutPoint(p.hash, p.n) == p;
      } else {
        assert p in tx.vin && Found(pr.ix, p);
        assert OutPoint(p.hash, p.n) == p;
      }
    }
    forall q, p | MarkedBy(ix, p, q)
      ensures q in done' && SpendsAt(q, p)
    {
      assert OutPoint(p.hash, p.n) == p;
      assert p.hash != tx.id;
      assert MarkedBy(pr.ix, p, q) || (q == pos && p in tx.vin);
    }
  }

  ghost function Positions(bi: BlockIndex, k: nat): iset<TxPos>
    requires bi.Child?
  {
    iset pos | InChain(bi.pprev, pos) || (pos.bi == bi && pos.i < k && TxAt(pos).Some?)
  }

  lemma PositionsStep(bi: BlockIndex, k: nat)
    requires bi.Child? && 0 < k <= |bi.block.vtx|
    ensures Positions(bi, k) == Positions(bi, k - 1) + iset{TxPos(bi, k - 1)}
  {
  }

  lemma {:induction false} ConnectTxsKeepMarks(ix: Index, bi: BlockIndex, k: nat)
    requires bi.Child? && k <= |bi.block.vtx| && DistinctTxs(bi.block.vtx) && FreshIds(ix, bi.block)
    requires ConnectTxs(ix, bi, k).Some? && MarksExact(ix, Positions(bi, 0))
    ensures MarksExact(ConnectTxs(ix, bi, k).value.ix, Positions(bi, k))
  {
    hide ConnectTx, MarksExact, Positions, DistinctTxs, FreshIds;
    if k > 0 {
      NotIndexedYet(ix, bi, k);
      hide ConnectTxs;
      var pr, tx, pos := ConnectTxs(ix, bi, k - 1).value, bi.block.vtx[k - 1], TxPos(bi, k - 1);
      PositionsStep(bi, k);
      ConnectTxsKeepMarks(ix, bi, k - 1);
      ConnectTxKeepsMarks(pr, tx, pos, Positions(bi, k - 1), Positions(bi, k));
    }
  }

  lemma {:induction false} ReplayMarksExact(bi: BlockIndex)
    requires Replay(bi).Some? && DistinctIds(bi)
    ensures MarksExact(Replay(bi).value, iset pos | InChain(bi, pos))
  {
    if bi.Child? {
      ReplayMarksExact(bi.pprev);
      ReplayKeys(bi.pprev);
      assert Positions(bi, 0) == iset pos | InChain(bi.pprev, pos);
      ConnectTxsKeepMarks(Replay(bi.pprev).value, bi, |bi.block.vtx|);
      assert Positions(bi, |bi.block.vtx|) == iset pos | InChain(bi, pos);
    }
  }

  /** Every transaction of a replayed chain passed CheckTransaction. */
  lemma {:induction false} ChainTxsChecked(bi: BlockIndex, pos: TxPos)
    requires Replay(bi).Some? && InChain(bi, pos)
    ensures TxAt(pos).Some? && CheckTransaction(TxAt(pos).value)
  {
    if pos.bi == bi && TxAt(pos).Some? {
      assert TxAt(pos).value in bi.block.vtx;
    } else {
      ChainTxsChecked(bi.pprev, pos);
    }
  }

  /**
   * In figures: amounts and totals are between nothing and five million coins, the null outpoint is an input of the
   * coinbase, its only one, and of no other transaction, an output without value and script is in a coinbase or behind
   * another such one in first place, and no transaction is later than its block.
   */
  lemma {:induction false} ChainTxFigures(bi: BlockIndex, pos: TxPos)
    requires Replay(bi).Some? && InChain(bi, pos)
    ensures TxAt(pos).Some?
    ensures var tx := TxAt(pos).value;
      && tx.vin != [] && tx.vout != [] && tx.nTime <= pos.bi.block.nTime
      && (forall k :: 0 <= k < |tx.vout| ==> 0 <= tx.vout[k].nValue <= 500_000_000_000_000)
      && 0 <= OutputSum(tx.vout) <= 500_000_000_000_000
      && (pos.i == 0 ==> tx.vin == [OutPoint(0, 4_294_967_295)])
      && (pos.i > 0 ==> OutPoint(0, 4_294_967_295) !in tx.vin)
      && (pos.i > 0 && TxOut(0, false) in tx.vout ==> |tx.vout| >= 2 && tx.vout[0] == TxOut(0, false))
  {
    if pos.bi == bi && TxAt(pos).Some? {
      var tx := TxAt(pos).value;
      assert tx in bi.block.vtx && CheckTransaction(tx);
      assert tx.vout[..|tx.vout|] == tx.vout && MoneyRange(OutputSum(tx.vout[..|tx.vout| - 1 + 1]));
    } else {
      ChainTxFigures(bi.pprev, pos);
    }
  }

  /** Exactly one input of tx is p. */
  ghost predicate SpendsOnce(tx: Tx, p: OutPoint) {
    exists j :: 0 <= j < |tx.vin| && tx.vin[j] == p && p !in tx.vin[..j] && p !in tx.vin[j + 1..]
  }

  lemma SpendsOnceIfDistinct(tx: Tx, p: OutPoint)
    requires DistinctOutPoints(tx.vin) && p in tx.vin
    ensures SpendsOnce(tx, p)
  {
    var j :| 0 <= j < |tx.vin| && tx.vin[j] == p;
    assert p !in tx.vin[..j] && p !in tx.vin[j + 1..];
  }

  /**
   * For an output of the index: it is marked spent iff exactly one transaction
   * of the chain spends it; that transaction does so with one input only and is
   * the one the mark points at. Transactions of the chain spend nothing else.
   */
  lemma SpentIffSpentOnce(bi: BlockIndex, p: OutPoint)
    requires Replay(bi).Some? && DistinctIds(bi)
    requires var ix := Replay(bi).value; p.hash in ix && p.n < |ix[p.hash].vSpent|
    ensures var mark := Replay(bi).value[p.hash].vSpent[p.n];
      && (mark.Some? <==> exists pos :: InChain(bi, pos) && SpendsAt(pos, p))
      && (forall pos :: InChain(bi, pos) && SpendsAt(pos, p) ==> mark == Some(pos) && SpendsOnce(TxAt(pos).value, p))
  {
    ReplayMarksExact(bi);
    var ix := Replay(bi).value;
    var mark := ix[p.hash].vSpent[p.n];
    if mark.Some? {
      assert MarkedBy(ix, p, mark.value);
    }
    forall pos | InChain(bi, pos) && SpendsAt(pos, p)
      ensures mark == Some(pos) && SpendsOnce(TxAt(pos).value, p)
    {
      ChainTxsChecked(bi, pos);
      SpendsOnceIfDistinct(TxAt(pos).value, p);
      assert MarkedBy(ix, p, pos);
    }
  }

  /** Every spend of the chain is of an output that the index knows. */
  lemma SpendsAreKnown(bi: BlockIndex, pos: TxPos, p: OutPoint)
    requires Replay(bi).Some? && DistinctIds(bi) && InChain(bi, pos) && SpendsAt(pos, p)
    ensures p.hash in ChainIds(bi) && MarkedBy(Replay(bi).value, p, pos)
  {
    ReplayMarksExact(bi);
    ReplayKeys(bi);
  }

  /** The spend at pos takes its output from q: of the same chain, not younger, and mature. */
  ghost predicate TakenFrom(bi: BlockIndex, pos: TxPos, p: OutPoint, q: TxPos) {
    && InChain(bi, q) && TxAt(pos).Some? && TxAt(q).Some?
    && var prev := TxAt(q).value;
       && prev.id == p.hash && p.n < |prev.vout| && prev.nTime <= TxAt(pos).value.nTime
       && (prev.IsCoinBase() || prev.IsCoinStake() ==> pos.bi.Height() >= q.bi.Height() + 30)
  }

  lemma {:induction false} NotWithin(q: BlockIndex, bi: BlockIndex, depth: nat)
    requires IsAncestor(q, bi) && !ConfirmedWithin(q, bi, depth)
    ensures bi.Height() >= q.Height() + depth
  {
    AncestorHeight(q, bi);
    if depth > 0 {
      NotWithin(q, bi.pprev, depth - 1);
    }
  }

  lemma {:induction false} InChainIsAncestor(bi: BlockIndex, pos: TxPos)
    requires InChain(bi, pos)
    ensures IsAncestor(pos.bi, bi)
  {
    if !(pos.bi == bi && TxAt(pos).Some?) {
      InChainIsAncestor(bi.pprev, pos);
    }
  }

  /**
   * Every spend of a replayed chain takes an output of a transaction of that chain with no later time stamp, and one
   * of a coinbase or coinstake only 30 blocks after it.
   */
  lemma {:induction false} SpendsInOrder(bi: BlockIndex, pos: TxPos, p: OutPoint)
    requires Replay(bi).Some? && DistinctIds(bi) && InChain(bi, pos) && SpendsAt(pos, p)
    ensures exists q :: TakenFrom(bi, pos, p, q)
  {
    hide ConnectTxs;
    if pos.bi == bi {
      var ix := Replay(bi.pprev).value;
      ReplayMarksExact(bi.pprev);
      assert Positions(bi, 0) == iset pos | InChain(bi.pprev, pos);
      ReplayKeys(bi.pprev);
      ConnectedAt(ix, bi, |bi.block.vtx|, pos.i);
      ConnectTxsKeepMarks(ix, bi, pos.i);
      SpendAtConnect(bi, ConnectTxs(ix, bi, pos.i).value, pos, p);
    } else {
      SpendsInOrder(bi.pprev, pos, p);
      var q :| TakenFrom(bi.pprev, pos, p, q);
      assert TakenFrom(bi, pos, p, q);
    }
  }

  lemma {:induction false} ConnectedAt(ix: Index, bi: BlockIndex, k: nat, i: nat)
    requires i < k <= |bi.block.vtx| && ConnectTxs(ix, bi, k).Some?
    ensures ConnectTxs(ix, bi, i).Some?
    ensures ConnectTx(ConnectTxs(ix, bi, i).value, bi.block.vtx[i], TxPos(bi, i)).Some?
  {
    hide ConnectTx;
    if i < k - 1 {
      ConnectedAt(ix, bi, k - 1, i);
    }
  }

  lemma SpendAtConnect(bi: BlockIndex, pr: Progress, pos: TxPos, p: OutPoint)
    requires bi.Child? && pos.bi == bi && SpendsAt(pos, p) && ConnectTx(pr, TxAt(pos).value, pos).Some?
    requires MarksExact(pr.ix, Positions(bi, pos.i))
    ensures exists q :: TakenFrom(bi, pos, p, q)
  {
    assert Found(pr.ix, p) && InputAcceptable(pr.ix, TxAt(pos).value, p, bi);
    var q := pr.ix[p.hash].pos;
    assert EntryOf(pr.ix[p.hash], p.hash);
    InChainIsAncestor(bi, q);
    if TxAt(q).value.IsCoinBase() || TxAt(q).value.IsCoinStake() {
      NotWithin(q.bi, bi, COINBASE_MATURITY);
    }
    assert TakenFrom(bi, pos, p, q);
  }
}
