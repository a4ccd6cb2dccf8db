/** Chains on which the node does not do what its other theorems promise under their conditions. */
module ChainExamples {
  import opened Common
  import opened Transactions
  import opened TxIndexing
  import opened SpendHistory
  import opened MoneySupply
  import opened TxIds
  import opened ChainLinks
  import opened ChainMoves
  import opened ChainState

  /** A coinbase that pays nothing. */
  function CoinBase(id: TxId): Tx {
    Tx(id, 0, [OutPoint(0, 0xFFFF_FFFF)], [TxOut(0, true)])
  }

  /** n blocks of one coinbase each; the coinbase of height h has id h. */
  function Idle(n: nat): BlockIndex {
    if n == 0 then Genesis(Block([], 0, 1)) else Child(Idle(n - 1), Block([CoinBase(n)], 0, 1))
  }

  lemma SumOne(o: TxOut)
    ensures OutputSum([o]) == o.nValue
  {
    assert [o][..0] == [];
  }

  lemma SumTwo(o: TxOut, p: TxOut)
    ensures OutputSum([o, p]) == o.nValue + p.nValue
  {
    assert [o, p][..1] == [o];
    SumOne(o);
  }

  lemma CoinBaseChecked(id: TxId)
    ensures CheckTransaction(CoinBase(id)) && CoinBase(id).IsCoinBase() && OutputSum(CoinBase(id).vout) == 0
  {
    SumOne(TxOut(0, true));
    assert CoinBase(id).vout[..1] == [TxOut(0, true)];
  }

  /** A block of one such coinbase connects, adds its entry and mints nothing. */
  lemma CoinBaseConnects(ix: Index, bi: BlockIndex, id: TxId)
    requires bi.block.vtx == [CoinBase(id)]
    ensures AfterConnect(ix, bi) == Some(Progress(ix[id := FreshEntry(TxPos(bi, 0), 1)], 0, 0, 0, 0))
  {
    hide CheckTransaction, FreshEntry, OutputSum, InputsConnect, BlockIndex.Height;
    CoinBaseChecked(id);
    assert CheckBlock(bi.block);
    assert ConnectTxs(ix, bi, 0) == Some(Start(ix));
    assert ConnectTxs(ix, bi, 1) == ConnectTx(Start(ix), CoinBase(id), TxPos(bi, 0));
  }

  lemma OneMoreCoinBase(bi: BlockIndex, id: TxId)
    requires bi.Child? && Replay(bi.pprev).Some? && bi.block.vtx == [CoinBase(id)]
    ensures Replay(bi) == Some(Replay(bi.pprev).value[id := FreshEntry(TxPos(bi, 0), 1)])
    ensures Supply(bi) == Supply(bi.pprev) && StrayMinted(bi) == StrayMinted(bi.pprev)
  {
    hide AfterConnect, FreshEntry, ConnectTxs, StakeRewards;
    CoinBaseConnects(Replay(bi.pprev).value, bi, id);
    NothingStray(bi, id);
  }

  lemma NothingStray(bi: BlockIndex, id: TxId)
    requires bi.Child? && Replay(bi).Some? && bi.block.vtx == [CoinBase(id)]
    ensures StrayRewards(bi) == 0
  {
    BlockMintsAtMostSubsidy(bi);
  }

  lemma NothingYet()
    ensures Replay(Idle(0)).Some? && Supply(Idle(0)) == 0 && StrayMinted(Idle(0)) == 0
  {
  }

  lemma {:induction false} IdleReplays(n: nat)
    ensures Replay(Idle(n)).Some? && Supply(Idle(n)) == 0 && StrayMinted(Idle(n)) == 0
    ensures n >= 1 ==> 1 in Replay(Idle(n)).value && Replay(Idle(n)).value[1] == FreshEntry(TxPos(Idle(1), 0), 1)
  {
    hide Replay, Supply, StrayMinted, FreshEntry, CoinBase;
    if n == 0 {
      NothingYet();
    } else {
      IdleReplays(n - 1);
      OneMoreCoinBase(Idle(n), n);
    }
  }

  lemma {:induction false} IdleIds(n: nat)
    ensures Idle(n).Height() == n && DistinctIds(Idle(n))
    ensures forall id :: id in ChainIds(Idle(n)) ==> 1 <= id <= n
  {
    if n > 0 {
      IdleIds(n - 1);
    }
  }

  lemma {:induction false} IdleDeep(n: nat, depth: nat)
    requires depth < n
    ensures !ConfirmedWithin(Idle(1), Idle(n), depth)
  {
    if depth > 0 {
      assert Idle(n) != Idle(1) by {
        IdleIds(n);
        IdleIds(1);
      }
      IdleDeep(n - 1, depth - 1);
    }
  }

  // ---------- a stray coinstake ----------

  /** Moves the worthless output of the first block to an output that is not a coinbase's. */
  const Move: Tx := Tx(32, 0, [OutPoint(1, 0)], [TxOut(0, true)])

  /** A coinstake that pays out what it likes. */
  const Stray: Tx := Tx(33, 0, [OutPoint(32, 0)], [TxOut(0, false), TxOut(MAX_MONEY, true)])

  const Minting: BlockIndex := Child(Idle(30), Block([CoinBase(31), Move, Stray], 0, 1))

  lemma MintingChecked()
    ensures CheckBlock(Minting.block) && !Minting.block.IsProofOfStake()
    ensures OutputSum(Move.vout) == 0 && OutputSum(Stray.vout) == MAX_MONEY
  {
    CoinBaseChecked(31);
    SumOne(TxOut(0, true));
    SumOne(TxOut(0, false));
    SumTwo(TxOut(0, false), TxOut(MAX_MONEY, true));
    assert Move.vout[..1] == [TxOut(0, true)];
    assert Stray.vout[..1] == [TxOut(0, false)] && Stray.vout[..2] == Stray.vout;
    assert CheckTransaction(Move) && CheckTransaction(Stray);
  }

  /** The output that the block starts from is 30 blocks old. */
  lemma FirstOutput()
    ensures TxAt(TxPos(Idle(1), 0)) == Some(CoinBase(1))
    ensures !ConfirmedWithin(Idle(1), Minting, COINBASE_MATURITY)
  {
    IdleDeep(30, 29);
    assert Minting != Idle(1) by {
      IdleIds(1);
      IdleIds(30);
    }
  }

  /** One input of value 0, found, old enough and unspent, connects. */
  lemma OneInput(ix: Index, tx: Tx, p: OutPoint, bi: BlockIndex)
    requires tx.vin == [p] && tx.nTime == 0 && Found(ix, p) && Unspent(ix, p) && OutputFor(ix, p).nValue == 0
    requires InputAcceptable(ix, tx, p, bi) && (tx.IsCoinStake() || OutputSum(tx.vout) == 0)
    ensures InputsConnect(ix, tx, bi) && InputSum(ix, tx.vin) == 0
  {
    assert [p][..0] == [];
    assert InputSum(ix, []) == 0;
  }

  /** The index after the block's coinbase and after the transaction behind it. */
  lemma MoveConnects(ix: Index)
    requires Replay(Idle(30)) == Some(ix)
    ensures ConnectTxs(ix, Minting, 2).Some? && StakeRewards(ix, Minting, 2) == 0
    ensures var pr := ConnectTxs(ix, Minting, 2).value;
      pr.nFees == 0 && Move.id in pr.ix && pr.ix[Move.id] == FreshEntry(TxPos(Minting, 1), 1)
  {
    hide ConfirmedWithin, CheckTransaction, Idle, Replay, OutputSum, InputSum, InputsConnect, MarkSpent;
    MintingChecked();
    CoinBaseChecked(31);
    IdleReplays(30);
    FirstOutput();
    assert ConnectTxs(ix, Minting, 0) == Some(Start(ix)) && StakeRewards(ix, Minting, 0) == 0;
    var pr := ConnectTx(Start(ix), CoinBase(31), TxPos(Minting, 0)).value;
    assert ConnectTxs(ix, Minting, 1) == Some(pr) && StakeRewards(ix, Minting, 1) == 0;
    assert pr.ix[1] == FreshEntry(TxPos(Idle(1), 0), 1);
    OneInput(pr.ix, Move, OutPoint(1, 0), Minting);
    assert ConnectTxs(ix, Minting, 2) == ConnectTx(pr, Move, TxPos(Minting, 1));
  }

  /** All three transactions of the block connect. */
  lemma StrayConnects(ix: Index)
    requires Replay(Idle(30)) == Some(ix)
    ensures ConnectTxs(ix, Minting, 3).Some? && ConnectTxs(ix, Minting, 3).value.nFees == 0
    ensures StakeRewards(ix, Minting, 3) == MAX_MONEY
  {
    hide ConfirmedWithin, CheckTransaction, Idle, Replay, OutputSum, InputSum, InputsConnect, MarkSpent;
    MintingChecked();
    MoveConnects(ix);
    var pr := ConnectTxs(ix, Minting, 2).value;
    OneInput(pr.ix, Stray, OutPoint(Move.id, 0), Minting);
    assert ConnectTxs(ix, Minting, 3) == ConnectTx(pr, Stray, TxPos(Minting, 2));
  }

  lemma MintingReplays(ix: Index)
    requires Replay(Idle(30)) == Some(ix)
    ensures AfterConnect(ix, Minting).Some? && AfterConnect(ix, Minting) == ConnectTxs(ix, Minting, 3)
    ensures Replay(Minting) == Some(ConnectTxs(ix, Minting, 3).value.ix)
  {
    hide Idle, ConnectTxs, OutputSum, CheckTransaction, CheckBlock;
    StrayConnects(ix);
    MintingChecked();
    CoinBaseChecked(31);
    assert RewardOk(ConnectTxs(ix, Minting, 3).value, Minting);
  }

  lemma MintingIds()
    ensures DistinctIds(Minting) && Minting.Height() == 31
  {
    hide Idle, ChainIds, CoinBase;
    IdleIds(30);
    assert Minting.pprev == Idle(30) && Minting.block.vtx == [CoinBase(31), Move, Stray];
    NoneOfThese();
  }

  lemma NoneOfThese()
    ensures CoinBase(31).id !in ChainIds(Idle(30)) && Move.id !in ChainIds(Idle(30)) && Stray.id !in ChainIds(Idle(30))
  {
    hide Idle, ChainIds;
    IdleIds(30);
  }

  /**
   * A work block may hold a coinstake behind its second transaction, and nothing checks what that one pays out. Here
   * is a chain of 31 blocks that connects and whose last block, at a height with a subsidy of one coin, mints
   * MAX_MONEY: its supply is neither bounded by the subsidies nor below MAX_MONEY.
   */
  lemma StrayCoinStakeMints()
    ensures Replay(Minting).Some? && DistinctIds(Minting) && Minting.Height() == 31
    ensures Supply(Minting) - Supply(Minting.pprev) == MAX_MONEY > Subsidy(Minting)
    ensures UnspentTotal(Replay(Minting).value) == StrayMinted(Minting) == MAX_MONEY > 4_974_458 * COIN
  {
    hide Idle, Replay, AfterConnect, ConnectTxs, StakeRewards, OutputSum, CheckTransaction, CheckBlock, UnspentTotal,
      DistinctIds, BlockIndex.Height;
    IdleReplays(30);
    MintingIds();
    var ix := Replay(Idle(30)).value;
    StrayConnects(ix);
    MintingReplays(ix);
    MintingChecked();
    CoinBaseChecked(31);
    NewMoney(ix, Minting, 3);
    SupplyIsUnspentTotal(Minting);
  }

  // ---------- a repeated id ----------

  /**
   * A block that repeats the id of an earlier coinbase connects, and disconnecting it does not restore the index.
   * The height that a coinbase has to hold keeps such a block from being accepted.
   */
  lemma RepeatedIdConnects(bi: BlockIndex)
    requires bi == Child(Idle(1), Block([CoinBase(1)], 0, 1))
    ensures Replay(Idle(1)).Some? && Replay(bi).Some? && !FreshIds(Replay(Idle(1)).value, bi.block)
    ensures ConnectTxs(Replay(Idle(1)).value, bi, 1).Some?
    ensures DisconnectTxs(ConnectTxs(Replay(Idle(1)).value, bi, 1).value.ix, bi, 1) != Some(Replay(Idle(1)).value)
  {
    hide FreshEntry, Idle, ConnectTxs, DisconnectTxs, CheckBlock;
    IdleReplays(1);
    CoinBaseConnects(Replay(Idle(1)).value, bi, 1);
    assert CoinBase(1) in bi.block.vtx;
    RoundTripIffFresh(Replay(Idle(1)).value, bi);
  }

  // ---------- a postponed block that fails ----------

  /**
   * The branch that is left, and a branch of two blocks: one with more trust, and one whose coinbase takes more than
   * the subsidy.
   */
  datatype Fork = Fork(g: BlockIndex, left: BlockIndex, trusted: BlockIndex, greedy: BlockIndex)

  const TooMuch: Tx := Tx(3, 0, [OutPoint(0, 0xFFFF_FFFF)], [TxOut(MAX_MONEY, true)])

  ghost predicate IsFork(f: Fork) {
    && f.g == Genesis(Block([], 0, 1))
    && f.left == Child(f.g, Block([CoinBase(1)], 0, 1))
    && f.trusted == Child(f.g, Block([CoinBase(2)], 0, 2))
    && f.greedy == Child(f.trusted, Block([TooMuch], 0, 1))
  }

  lemma ForkReplays(f: Fork)
    requires IsFork(f)
    ensures Replay(f.g).Some? && Replay(f.left).Some? && Replay(f.trusted).Some?
  {
    hide AfterConnect;
    CoinBaseConnects(map[], f.left, 1);
    CoinBaseConnects(map[], f.trusted, 2);
  }

  lemma GreedyFails(f: Fork)
    requires IsFork(f)
    ensures Replay(f.greedy).None?
  {
    hide CheckTransaction, FreshEntry, OutputSum;
    ForkReplays(f);
    var ix, bi := Replay(f.trusted).value, f.greedy;
    SumOne(TooMuch.vout[0]);
    assert bi.block.vtx == [TooMuch] && TooMuch.IsCoinBase();
    assert ConnectTxs(ix, bi, 0) == Some(Start(ix));
    assert ConnectTxs(ix, bi, 1) == ConnectTx(Start(ix), TooMuch, TxPos(bi, 0));
    assert bi.Height() == 2;
    assert !RewardOk(ConnectTxs(ix, bi, 1).value, bi);
  }

  lemma ForkIds(f: Fork)
    requires IsFork(f)
    ensures IdsOk(f.left) && IdsOk(f.trusted) && IdsOk(f.greedy)
  {
    OneBlockIds(f.g, f.left);
    OneBlockIds(f.g, f.trusted);
    assert ChainIds(f.trusted) == {2};
    forall p | InChain(f.greedy, p)
      ensures p.i == 0 && (p.bi == f.greedy || p.bi == f.trusted)
    {
      assert InChain(f.greedy, p) <==> (p.bi == f.greedy && TxAt(p).Some?) || InChain(f.trusted, p);
      assert InChain(f.trusted, p) <==> (p.bi == f.trusted && TxAt(p).Some?) || InChain(f.g, p);
    }
  }

  lemma OneBlockIds(g: BlockIndex, b: BlockIndex)
    requires g.Genesis? && b.Child? && b.pprev == g && |b.block.vtx| == 1
    ensures IdsOk(b)
  {
    forall p | InChain(b, p)
      ensures p == TxPos(b, 0)
    {
      assert InChain(b, p) <==> (p.bi == b && TxAt(p).Some?) || InChain(g, p);
    }
  }

  lemma Trusts(f: Fork)
    requires IsFork(f)
    ensures f.g.ChainTrust() == 1 && f.left.ChainTrust() == 2 && f.trusted.ChainTrust() == 3 && f.greedy.ChainTrust() == 4
    ensures Intermediate(f.greedy, 2) == f.trusted && Intermediate(f.trusted, 2) == f.trusted
    ensures Intermediate(f.left, 1) == f.left
  {
  }

  lemma Ancestry(f: Fork, b: BlockIndex)
    requires IsFork(f)
    ensures IsAncestor(b, f.left) <==> b == f.left || b == f.g
    ensures IsAncestor(b, f.trusted) <==> b == f.trusted || b == f.g
    ensures IsAncestor(b, f.greedy) <==> b == f.greedy || b == f.trusted || b == f.g
  {
    assert IsAncestor(b, f.g) <==> b == f.g;
  }

  /** The block with more trust can be reached and the one behind it cannot. */
  lemma PostponedBlockFails(f: Fork, verdict: Verdict)
    requires IsFork(f) && verdict(f.trusted)
    ensures CanReach(verdict, f.left, Intermediate(f.greedy, f.left.ChainTrust()))
    ensures !CanReach(verdict, f.left, f.greedy)
  {
    hide Replay, IsAncestor;
    Trusts(f);
    ForkReplays(f);
    GreedyFails(f);
    forall b
      ensures IsAncestor(b, f.trusted) && !IsAncestor(b, f.left) ==> b == f.trusted
    {
      Ancestry(f, b);
    }
  }

  lemma LeftIsReached(f: Fork, verdict: Verdict)
    requires IsFork(f) && verdict(f.left)
    ensures CanReach(verdict, f.g, f.left)
  {
    hide Replay, IsAncestor;
    ForkReplays(f);
    forall b
      ensures IsAncestor(b, f.left) && !IsAncestor(b, f.g) ==> b == f.left
    {
      Ancestry(f, b);
      assert IsAncestor(f.g, f.g) by {
        Reflexive(f.g);
      }
    }
  }

  lemma Reflexive(b: BlockIndex)
    ensures IsAncestor(b, b)
  {
  }

  lemma TrustedIsRefused(f: Fork, verdict: Verdict)
    requires IsFork(f) && !verdict(f.trusted)
    ensures !CanReach(verdict, f.left, f.trusted)
  {
    Ancestry(f, f.trusted);
  }

  lemma StopsAtTrusted(f: Fork, verdict: Verdict, tip: BlockIndex)
    requires IsFork(f) && verdict(f.trusted) && FarthestTip(verdict, f.left, f.greedy, tip)
    ensures tip == f.trusted
  {
    hide CanReach, IsAncestor;
    Trusts(f);
    PostponedBlockFails(f, verdict);
    Ancestry(f, f.trusted);
    Ancestry(f, tip);
    if tip == f.g {
      AncestorHeight(f.trusted, tip);
    }
  }

  /**
   * A run after which memory and disk disagree: the block with more trust is refused when it comes, by an outside
   * check that has changed its mind when the block behind it comes. Then the one is connected, and the other is
   * recorded as best all the same.
   */
  method MemoryLeavesDisk(f: Fork) returns (node: Chain)
    requires IsFork(f)
    ensures fresh(node) && node.pindexBest == f.greedy && node.Durable() && node.db.committedBest == f.trusted
    ensures !node.Valid() && node.Behind() && node.known == {f.g, f.left, f.trusted, f.greedy} && fresh(node.db)
  {
    hide CanReach, IdsOk, FarthestTip, Intermediate, BlockIndex.ChainTrust, Chain.Settled, Chain.Durable, Chain.Valid,
      Chain.Behind, Chain.Astray, AfterConnect;
    var all: Verdict := _ => true;
    var none: Verdict := _ => false;
    ForkIds(f);
    Trusts(f);
    LeftIsReached(f, all);
    TrustedIsRefused(f, none);
    PostponedBlockFails(f, all);
    node := new Chain(f.g);
    var ok := node.AddToBlockIndex(f.g, f.left.block, all);
    ok := node.AddToBlockIndex(f.g, f.trusted.block, none);
    ok := node.AddToBlockIndex(f.trusted, f.greedy.block, all);
    StopsAtTrusted(f, all, node.db.committedBest);
  }

  lemma NextIds(f: Fork, next: BlockIndex)
    requires IsFork(f) && next == Child(f.greedy, Block([CoinBase(4)], 0, 1))
    ensures IdsOk(next)
  {
    ForkIds(f);
    assert ChainIds(f.trusted) == {2} && ChainIds(f.greedy) == {2, 3};
    forall p | InChain(next, p)
      ensures p.i == 0 && (p.bi == next || p.bi == f.greedy || p.bi == f.trusted)
    {
      assert InChain(next, p) <==> (p.bi == next && TxAt(p).Some?) || InChain(f.greedy, p);
      assert InChain(f.greedy, p) <==> (p.bi == f.greedy && TxAt(p).Some?) || InChain(f.trusted, p);
      assert InChain(f.trusted, p) <==> (p.bi == f.trusted && TxAt(p).Some?) || InChain(f.g, p);
    }
  }

  lemma OnDisk(node: Chain, f: Fork, next: BlockIndex)
    requires node.Durable() && node.db.committedBest == f.trusted && next.block == Block([CoinBase(4)], 0, 1)
    ensures Replay(f.trusted) == Some(node.db.committed) && AfterConnect(node.db.committed, next).Some?
  {
    hide AfterConnect, Replay;
    CoinBaseConnects(node.db.committed, next, 4);
  }

  /** The run goes on: the next block is connected to the index without its parent, and the disk is no chain's. */
  method NextBlockGoesAstray(f: Fork, next: BlockIndex) returns (node: Chain)
    requires IsFork(f) && next == Child(f.greedy, Block([CoinBase(4)], 0, 1))
    ensures fresh(node) && node.pindexBest == next && node.db.committedBest == next
    ensures Replay(next) != Some(node.db.committed) && !node.Durable()
  {
    hide CanReach, IdsOk, FarthestTip, Intermediate, BlockIndex.ChainTrust, Chain.Settled, Chain.Durable, Chain.Valid,
      Chain.Behind, AfterConnect, Replay, IsFork;
    node := MemoryLeavesDisk(f);
    NextIds(f, next);
    OnDisk(node, f, next);
    NewBlock(f, next);
    var all: Verdict := _ => true;
    var ok := node.AddToBlockIndex(f.greedy, next.block, all);
  }

  lemma NewBlock(f: Fork, next: BlockIndex)
    requires IsFork(f) && next == Child(f.greedy, Block([CoinBase(4)], 0, 1))
    ensures next !in {f.g, f.left, f.trusted, f.greedy}
  {
    assert f.left.Height() == 1 && f.trusted.Height() == 1;
    assert f.greedy.Height() == 2;
    assert next.Height() == 3;
  }
}
