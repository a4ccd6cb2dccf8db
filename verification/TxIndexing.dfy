/**
 * The spent-output index as a function of the chain: what connecting and
 * disconnecting a block mean, without the overlay map, undo order and write-back
 * by which the code computes them.
 */
module TxIndexing {
  import opened Common
  import opened Transactions

  const COINBASE_MATURITY: nat := 30

  /** Where a transaction is stored and, per output, the position of its spender. */
  datatype TxIndex = TxIndex(pos: TxPos, vSpent: seq<Option<TxPos>>)

  type Index = map<TxId, TxIndex>

  function FreshEntry(pos: TxPos, nOutputs: nat): TxIndex {
    TxIndex(pos, seq(nOutputs, _ => None))
  }

  // ---------- one transaction ----------

  /** The output p refers to exists in the index and in the stored transaction. */
  predicate Found(ix: Index, p: OutPoint) {
    && p.hash in ix
    && TxAt(ix[p.hash].pos).Some?
    && p.n < |TxAt(ix[p.hash].pos).value.vout|
    && p.n < |ix[p.hash].vSpent|
  }

  function OutputFor(ix: Index, p: OutPoint): TxOut
    requires Found(ix, p)
  {
    TxAt(ix[p.hash].pos).value.vout[p.n]
  }

  /** target is `from` or one of the depth - 1 entries before it. */
  predicate ConfirmedWithin(target: BlockIndex, from: BlockIndex, depth: nat) {
    depth > 0 && (from == target || (from.Child? && ConfirmedWithin(target, from.pprev, depth - 1)))
  }

  /** Maturity, timestamp and money range of one input of tx, spent in block bi. */
  predicate InputAcceptable(ix: Index, tx: Tx, p: OutPoint, bi: BlockIndex)
    requires Found(ix, p)
  {
    var prev := TxAt(ix[p.hash].pos).value;
    && (prev.IsCoinBase() || prev.IsCoinStake() ==>
          !ConfirmedWithin(ix[p.hash].pos.bi, bi, COINBASE_MATURITY))
    && prev.nTime <= tx.nTime
    && MoneyRange(prev.vout[p.n].nValue)
  }

  predicate AllFound(ix: Index, vin: seq<OutPoint>) {
    forall p <- vin :: Found(ix, p)
  }

  function InputSum(ix: Index, vin: seq<OutPoint>): int
    requires AllFound(ix, vin)
  {
    if vin == [] then 0
    else
      assert forall p <- vin[..|vin| - 1] :: p in vin;
      InputSum(ix, vin[..|vin| - 1]) + OutputFor(ix, vin[|vin| - 1]).nValue
  }

  predicate Unspent(ix: Index, p: OutPoint)
    requires Found(ix, p)
  {
    ix[p.hash].vSpent[p.n].None?
  }

  /** tx may take its inputs from ix when connected in block bi. */
  ghost predicate InputsConnect(ix: Index, tx: Tx, bi: BlockIndex) {
    && AllFound(ix, tx.vin)
    && (forall p <- tx.vin :: InputAcceptable(ix, tx, p, bi) && Unspent(ix, p))
    && DistinctOutPoints(tx.vin)
    && MoneyRange(InputSum(ix, tx.vin))
    && (!tx.IsCoinStake() ==>
          InputSum(ix, tx.vin) >= OutputSum(tx.vout) && MoneyRange(InputSum(ix, tx.vin) - OutputSum(tx.vout)))
  }

  /** ix with every output of vin marked as spent at pos. */
  function MarkSpent(ix: Index, vin: seq<OutPoint>, pos: TxPos): Index {
    map h | h in ix ::
      TxIndex(ix[h].pos, seq(|ix[h].vSpent|, (n: nat) requires n < |ix[h].vSpent| =>
        if OutPoint(h, n) in vin then Some(pos) else ix[h].vSpent[n]))
  }

  /** ix with every output of vin marked as not spent. */
  function UnmarkSpent(ix: Index, vin: seq<OutPoint>): Index {
    map h | h in ix ::
      TxIndex(ix[h].pos, seq(|ix[h].vSpent|, (n: nat) requires n < |ix[h].vSpent| =>
        if OutPoint(h, n) in vin then None else ix[h].vSpent[n]))
  }

  /** The index and the running totals kept while the transactions of a block connect. */
  datatype Progress = Progress(ix: Index, nFees: int, nValueIn: int, nValueOut: int, nStakeReward: int)

  ghost function ConnectTx(pr: Progress, tx: Tx, pos: TxPos): Option<Progress> {
    var out := OutputSum(tx.vout);
    if tx.IsCoinBase() then
      Some(pr.(ix := pr.ix[tx.id := FreshEntry(pos, |tx.vout|)], nValueOut := pr.nValueOut + out))
    else if !InputsConnect(pr.ix, tx, pos.bi) then None
    else
      var in_ := InputSum(pr.ix, tx.vin);
      Some(Progress(
        MarkSpent(pr.ix, tx.vin, pos)[tx.id := FreshEntry(pos, |tx.vout|)],
        if tx.IsCoinStake() then pr.nFees else pr.nFees + in_ - out,
        pr.nValueIn + in_,
        pr.nValueOut + out,
        if tx.IsCoinStake() then out - in_ else pr.nStakeReward))
  }

  ghost function DisconnectTx(ix: Index, tx: Tx): Option<Index> {
    if tx.IsCoinBase() then Some(ix - {tx.id})
    else if forall p <- tx.vin :: p.hash in ix && p.n < |ix[p.hash].vSpent| then
      Some(UnmarkSpent(ix, tx.vin) - {tx.id})
    else None
  }

  // ---------- marking input by input ----------

  /** One more output marked. */
  lemma MarkOne(ix: Index, vin: seq<OutPoint>, p: OutPoint, pos: TxPos)
    requires p.hash in ix && p.n < |ix[p.hash].vSpent|
    ensures var m := MarkSpent(ix, vin, pos);
      MarkSpent(ix, vin + [p], pos) == m[p.hash := m[p.hash].(vSpent := m[p.hash].vSpent[p.n := Some(pos)])]
  {
    var m := MarkSpent(ix, vin, pos);
    var l, r := MarkSpent(ix, vin + [p], pos), m[p.hash := m[p.hash].(vSpent := m[p.hash].vSpent[p.n := Some(pos)])];
    assert l.Keys == r.Keys;
    forall h | h in ix
      ensures l[h] == r[h]
    {
      assert l[h].vSpent == r[h].vSpent;
    }
    assert l == r;
  }

  /** One more output unmarked. */
  lemma UnmarkOne(ix: Index, vin: seq<OutPoint>, p: OutPoint)
    requires p.hash in ix && p.n < |ix[p.hash].vSpent|
    ensures var m := UnmarkSpent(ix, vin);
      UnmarkSpent(ix, vin + [p]) == m[p.hash := m[p.hash].(vSpent := m[p.hash].vSpent[p.n := None])]
  {
    var m := UnmarkSpent(ix, vin);
    var l, r := UnmarkSpent(ix, vin + [p]), m[p.hash := m[p.hash].(vSpent := m[p.hash].vSpent[p.n := None])];
    assert l.Keys == r.Keys;
    forall h | h in ix
      ensures l[h] == r[h]
    {
      assert l[h].vSpent == r[h].vSpent;
    }
    assert l == r;
  }

  lemma MarkNone(ix: Index, pos: TxPos)
    ensures MarkSpent(ix, [], pos) == ix && UnmarkSpent(ix, []) == ix
  {
    forall h | h in ix
      ensures MarkSpent(ix, [], pos)[h] == ix[h] && UnmarkSpent(ix, [])[h] == ix[h]
    {
      assert MarkSpent(ix, [], pos)[h].vSpent == ix[h].vSpent;
      assert UnmarkSpent(ix, [])[h].vSpent == ix[h].vSpent;
    }
    assert MarkSpent(ix, [], pos) == ix && UnmarkSpent(ix, []) == ix;
  }

  // ---------- one block ----------

  function Start(ix: Index): Progress {
    Progress(ix, 0, 0, 0, 0)
  }

  /** The state after connecting the first k transactions of bi to ix. */
  ghost function ConnectTxs(ix: Index, bi: BlockIndex, k: nat): Option<Progress>
    requires k <= |bi.block.vtx|
  {
    if k == 0 then Some(Start(ix))
    else match ConnectTxs(ix, bi, k - 1)
      case None => None
      case Some(pr) => ConnectTx(pr, bi.block.vtx[k - 1], TxPos(bi, k - 1))
  }

  /** Once a transaction fails to connect, so does the block. */
  lemma {:induction false} FailurePropagates(ix: Index, bi: BlockIndex, k: nat, n: nat)
    requires k <= n <= |bi.block.vtx| && ConnectTxs(ix, bi, k).None?
    ensures ConnectTxs(ix, bi, n).None?
  {
    hide ConnectTx;
    if k < n {
      FailurePropagates(ix, bi, k, n - 1);
    }
  }

  /** ix after disconnecting the first k transactions of bi, last one first. */
  ghost function DisconnectTxs(ix: Index, bi: BlockIndex, k: nat): Option<Index>
    requires k <= |bi.block.vtx|
  {
    if k == 0 then Some(ix)
    else match DisconnectTx(ix, bi.block.vtx[k - 1])
      case None => None
      case Some(m) => DisconnectTxs(m, bi, k - 1)
  }

  ghost predicate FreshIds(ix: Index, b: Block) {
    forall tx <- b.vtx :: tx.id !in ix
  }

  lemma {:induction false} DisconnectUndoesConnectTx(pr: Progress, tx: Tx, pos: TxPos)
    requires ConnectTx(pr, tx, pos).Some? && tx.id !in pr.ix
    ensures DisconnectTx(ConnectTx(pr, tx, pos).value.ix, tx) == Some(pr.ix)
  {
    var ix := ConnectTx(pr, tx, pos).value.ix;
    if tx.IsCoinBase() {
      assert ix - {tx.id} == pr.ix;
    } else {
      var m := UnmarkSpent(ix, tx.vin) - {tx.id};
      assert m.Keys == pr.ix.Keys;
      forall h | h in pr.ix
        ensures m[h] == pr.ix[h]
      {
        assert forall n: nat :: n < |pr.ix[h].vSpent| && OutPoint(h, n) in tx.vin ==> Unspent(pr.ix, OutPoint(h, n));
        assert m[h].vSpent == pr.ix[h].vSpent;
      }
      assert m == pr.ix;
    }
  }

  /** The keys after connecting: the old ones and the ids of the block. */
  lemma {:induction false} ConnectTxsKeys(ix: Index, bi: BlockIndex, k: nat)
    requires k <= |bi.block.vtx| && ConnectTxs(ix, bi, k).Some?
    ensures ConnectTxs(ix, bi, k).value.ix.Keys == ix.Keys + set i | 0 <= i < k :: bi.block.vtx[i].id
  {
    hide InputsConnect, FreshEntry, InputSum, OutputSum;
    if k > 0 {
      ConnectTxsKeys(ix, bi, k - 1);
    }
  }

  /** The ids of the block are not indexed before their turn. */
  lemma NotIndexedYet(ix: Index, bi: BlockIndex, k: nat)
    requires 0 < k <= |bi.block.vtx| && DistinctTxs(bi.block.vtx) && FreshIds(ix, bi.block)
    requires ConnectTxs(ix, bi, k).Some?
    ensures ConnectTxs(ix, bi, k - 1).Some?
    ensures ConnectTxs(ix, bi, k) == ConnectTx(ConnectTxs(ix, bi, k - 1).value, bi.block.vtx[k - 1], TxPos(bi, k - 1))
    ensures bi.block.vtx[k - 1].id !in ConnectTxs(ix, bi, k - 1).value.ix
  {
    hide ConnectTx;
    ConnectTxsKeys(ix, bi, k - 1);
  }

  /** Disconnecting a block's transactions, last first, undoes connecting them. */
  lemma {:induction false} DisconnectUndoesConnect(ix: Index, bi: BlockIndex, k: nat)
    requires k <= |bi.block.vtx| && DistinctTxs(bi.block.vtx) && FreshIds(ix, bi.block)
    requires ConnectTxs(ix, bi, k).Some?
    ensures DisconnectTxs(ConnectTxs(ix, bi, k).value.ix, bi, k) == Some(ix)
  {
    if k > 0 {
      hide ConnectTx, DisconnectTx, DistinctTxs, FreshIds;
      NotIndexedYet(ix, bi, k);
      DisconnectUndoesConnectTx(ConnectTxs(ix, bi, k - 1).value, bi.block.vtx[k - 1], TxPos(bi, k - 1));
      DisconnectUndoesConnect(ix, bi, k - 1);
    }
  }

  lemma {:induction false} DisconnectErases(ix: Index, bi: BlockIndex, k: nat)
    requires k <= |bi.block.vtx| && DisconnectTxs(ix, bi, k).Some?
    ensures var r := DisconnectTxs(ix, bi, k).value;
      r.Keys <= ix.Keys && forall i :: 0 <= i < k ==> bi.block.vtx[i].id !in r
  {
    if k > 0 {
      DisconnectErases(DisconnectTx(ix, bi.block.vtx[k - 1]).value, bi, k - 1);
    }
  }

  /**
   * Disconnecting restores the index exactly when the block's transaction ids
   * were not in it. (A repeated id overwrites the older entry, and disconnecting
   * then erases it.)
   */
  lemma {:induction false} RoundTripIffFresh(ix: Index, bi: BlockIndex)
    requires CheckBlock(bi.block) && ConnectTxs(ix, bi, |bi.block.vtx|).Some?
    ensures DisconnectTxs(ConnectTxs(ix, bi, |bi.block.vtx|).value.ix, bi, |bi.block.vtx|) == Some(ix)
       <==> FreshIds(ix, bi.block)
  {
    var n := |bi.block.vtx|;
    var after := ConnectTxs(ix, bi, n).value.ix;
    if FreshIds(ix, bi.block) {
      DisconnectUndoesConnect(ix, bi, n);
    } else if DisconnectTxs(after, bi, n) == Some(ix) {
      DisconnectErases(after, bi, n);
    }
  }

  // ---------- rewards and the whole chain ----------

  /** The subsidy of a proof-of-work block (main network), fees excluded. */
  function WorkSubsidy(nHeight: nat): int {
    if nHeight < 2 then 0
    else if nHeight == 2 then 100_000 * COIN
    else if nHeight < 200 then 1 * COIN
    else if nHeight < 262_800 then 34 * COIN / 10
    else if nHeight < 1_314_000 then 95 * COIN / 100
    else if nHeight < 2_628_000 then 75 * COIN / 100
    else if nHeight < 5_256_000 then 40 * COIN / 100
    else if nHeight < 13_140_000 then 12 * COIN / 100
    else 1 * COIN
  }

  /** The subsidy of a proof-of-stake block (main network), fees excluded. */
  function StakeSubsidy(nHeight: nat): int {
    if nHeight < 200 then 1 * COIN
    else if nHeight < 262_800 then 34 * COIN / 10
    else if nHeight < 1_314_000 then 95 * COIN / 100
    else if nHeight < 2_628_000 then 75 * COIN / 100
    else if nHeight < 5_256_000 then 40 * COIN / 100
    else if nHeight < 13_140_000 then 12 * COIN / 100
    else 1 * COIN
  }

  function Subsidy(bi: BlockIndex): int {
    if bi.block.IsProofOfStake() then StakeSubsidy(bi.Height()) else WorkSubsidy(bi.Height())
  }

  predicate RewardOk(pr: Progress, bi: BlockIndex)
    requires bi.block.vtx != []
  {
    if bi.block.IsProofOfStake() then pr.nStakeReward <= StakeSubsidy(bi.Height()) + pr.nFees
    else OutputSum(bi.block.vtx[0].vout) <= WorkSubsidy(bi.Height()) + pr.nFees
  }

  /** The final totals if every check on bi against ix passes. */
  ghost function AfterConnect(ix: Index, bi: BlockIndex): Option<Progress> {
    if !CheckBlock(bi.block) then None
    else match ConnectTxs(ix, bi, |bi.block.vtx|)
      case None => None
      case Some(pr) => if RewardOk(pr, bi) then Some(pr) else None
  }

  ghost function AfterDisconnect(ix: Index, bi: BlockIndex): Option<Index> {
    DisconnectTxs(ix, bi, |bi.block.vtx|)
  }

  /**
   * The index got by connecting every block after the genesis block, in order,
   * up to bi. The genesis block's own transactions are never indexed.
   */
  ghost function Replay(bi: BlockIndex): Option<Index> {
    if bi.Genesis? then Some(map[])
    else match Replay(bi.pprev)
      case None => None
      case Some(ix) =>
        match AfterConnect(ix, bi)
        case None => None
        case Some(pr) => Some(pr.ix)
  }

  /** The ids of the transactions in bi and its ancestors, the genesis block excluded. */
  function ChainIds(bi: BlockIndex): set<TxId> {
    if bi.Genesis? then {} else ChainIds(bi.pprev) + set tx <- bi.block.vtx :: tx.id
  }

  /** No transaction id occurs in two blocks of the chain. */
  ghost predicate DistinctIds(bi: BlockIndex) {
    bi.Genesis? || (DistinctIds(bi.pprev) && forall tx <- bi.block.vtx :: tx.id !in ChainIds(bi.pprev))
  }

  lemma ReplayStep(b: BlockIndex)
    requires b.Child? && Replay(b.pprev).Some?
    ensures Replay(b).Some? <==> AfterConnect(Replay(b.pprev).value, b).Some?
    ensures Replay(b).Some? ==> Replay(b).value == AfterConnect(Replay(b.pprev).value, b).value.ix
  {
  }

  lemma {:induction false} ReplayKeys(bi: BlockIndex)
    requires Replay(bi).Some?
    ensures Replay(bi).value.Keys == ChainIds(bi)
  {
    if bi.Child? {
      ReplayKeys(bi.pprev);
      ConnectTxsKeys(Replay(bi.pprev).value, bi, |bi.block.vtx|);
      assert (set i | 0 <= i < |bi.block.vtx| :: bi.block.vtx[i].id) == set tx <- bi.block.vtx :: tx.id;
    }
  }

  /** Disconnecting the last block of a replayed chain replays the shorter chain. */
  lemma {:induction false} DisconnectTip(bi: BlockIndex)
    requires bi.Child? && Replay(bi).Some? && DistinctIds(bi)
    ensures Replay(bi.pprev).Some? && AfterDisconnect(Replay(bi).value, bi) == Replay(bi.pprev)
  {
    ReplayKeys(bi.pprev);
    DisconnectUndoesConnect(Replay(bi.pprev).value, bi, |bi.block.vtx|);
  }
}
