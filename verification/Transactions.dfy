/** Transactions, blocks and block-index entries, as far as the chain state depends on them. */
module Transactions {
  import opened Common

  const COIN: int := 100_000_000
  const MAX_MONEY: int := 5_000_000 * COIN

  type TxId = nat

  predicate MoneyRange(nValue: int) {
    0 <= nValue <= MAX_MONEY
  }

  datatype OutPoint = OutPoint(hash: TxId, n: nat) {
    predicate IsNull() {
      hash == 0 && n == 0xFFFF_FFFF
    }
  }

  /** `hasScript` is false when the output's script is empty. */
  datatype TxOut = TxOut(nValue: int, hasScript: bool) {
    predicate IsEmpty() {
      nValue == 0 && !hasScript
    }
  }

  /** `id` is the transaction's hash. */
  datatype Tx = Tx(id: TxId, nTime: nat, vin: seq<OutPoint>, vout: seq<TxOut>) {
    predicate IsCoinBase() {
      |vin| == 1 && vin[0].IsNull() && |vout| >= 1
    }

    predicate IsCoinStake() {
      |vin| > 0 && !vin[0].IsNull() && |vout| >= 2 && vout[0].IsEmpty()
    }

    predicate Spends(p: OutPoint) {
      !IsCoinBase() && p in vin
    }
  }

  datatype Block = Block(vtx: seq<Tx>, nTime: nat, nTrust: nat) {
    predicate IsProofOfStake() {
      |vtx| > 1 && vtx[1].IsCoinStake()
    }
  }

  /**
   * A block-index entry. Block hashes are taken as injective, so an entry is
   * determined by its block and its ancestry, and pointers to entries are
   * equal exactly when these values are.
   */
  datatype BlockIndex =
    | Genesis(block: Block)
    | Child(pprev: BlockIndex, block: Block)
  {
    function Height(): nat {
      if Genesis? then 0 else pprev.Height() + 1
    }

    function ChainTrust(): nat {
      (if Genesis? then 0 else pprev.ChainTrust()) + block.nTrust
    }

    function Root(): BlockIndex {
      if Genesis? then this else pprev.Root()
    }
  }

  /** a is b or one of b's ancestors. */
  predicate IsAncestor(a: BlockIndex, b: BlockIndex) {
    a == b || (b.Child? && IsAncestor(a, b.pprev))
  }

  /** The position of a transaction on disk: a block and an offset in it. */
  datatype TxPos = TxPos(bi: BlockIndex, i: nat)

  function TxAt(pos: TxPos): Option<Tx> {
    if pos.i < |pos.bi.block.vtx| then Some(pos.bi.block.vtx[pos.i]) else None
  }

  /** The sum of the output values. */
  function OutputSum(vout: seq<TxOut>): int {
    if vout == [] then 0 else OutputSum(vout[..|vout| - 1]) + vout[|vout| - 1].nValue
  }

  predicate DistinctOutPoints(vin: seq<OutPoint>) {
    forall i, j :: 0 <= i < j < |vin| ==> vin[i] != vin[j]
  }

  predicate DistinctTxs(vtx: seq<Tx>) {
    forall i, j :: 0 <= i < j < |vtx| ==> vtx[i].id != vtx[j].id
  }

  /** Every running total of the outputs stays in the money range. */
  predicate OutputsInRange(vout: seq<TxOut>) {
    forall k :: 0 <= k < |vout| ==> MoneyRange(vout[k].nValue) && MoneyRange(OutputSum(vout[..k + 1]))
  }

  /** The checks on a transaction that need no context. */
  predicate CheckTransaction(tx: Tx) {
    && tx.vin != [] && tx.vout != []
    && (forall k :: 0 <= k < |tx.vout| && tx.vout[k].IsEmpty() ==> tx.IsCoinBase() || tx.IsCoinStake())
    && OutputsInRange(tx.vout)
    && DistinctOutPoints(tx.vin)
    && (!tx.IsCoinBase() ==> forall p <- tx.vin :: !p.IsNull())
  }

  /** The checks on a block that need no context. */
  predicate CheckBlock(b: Block) {
    && b.vtx != [] && b.vtx[0].IsCoinBase()
    && (forall i :: 1 <= i < |b.vtx| ==> !b.vtx[i].IsCoinBase())
    && (b.IsProofOfStake() ==>
          && |b.vtx[0].vout| == 1 && b.vtx[0].vout[0].IsEmpty()
          && forall i :: 2 <= i < |b.vtx| ==> !b.vtx[i].IsCoinStake())
    && (forall tx <- b.vtx :: CheckTransaction(tx) && tx.nTime <= b.nTime)
    && DistinctTxs(b.vtx)
  }
}
