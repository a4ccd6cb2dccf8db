/**
 * The block a node assembles is one its own block connection accepts: the transactions chosen against the test
 * index (src/miner.cpp:254-361) connect one after the other against the database (src/main.cpp:2142-2194).
 */
module BlockAccepted {
  import opened Common
  import opened Transactions
  import opened TxIndexing
  import opened BlockAssembly
  import opened BlockSelection

  /** bi is the block made of coinbase and the selection, on top of the block it was assembled for. */
  ghost predicate Assembled(s: Setting, coinbase: Tx, txs: seq<Tx>, bi: BlockIndex) {
    && Candidates(s, txs) && DistinctTxs(txs) && ParentsFirst(s, txs) && AllChecked(s, txs)
    && DistinctOutPoints(AllInputs(txs))
    && bi.Child? && bi.pprev == s.pindexPrev && bi.block.vtx == [coinbase] + txs
    && coinbase.IsCoinBase() && coinbase.id !in s.db && coinbase.id !in Ids(txs)
    && forall h :: h in s.db ==> s.db[h].pos.bi != bi
  }

  /** The index while the block connects: the old one, the transactions so far, and exactly their spent marks. */
  ghost predicate IndexAfter(s: Setting, coinbase: Tx, bi: BlockIndex, txs: seq<Tx>, ix: Index) {
    && (forall h :: h in ix <==> h in s.db || h == coinbase.id || h in Ids(txs))
    && (forall h :: h in s.db && h in ix ==> ix[h].pos == s.db[h].pos && |ix[h].vSpent| == |s.db[h].vSpent|)
    && (forall k :: 0 <= k < |txs| && txs[k].id in ix ==> IsStored(txs[k], TxPos(bi, k + 1), ix))
    && (forall h :: h in ix ==> MarksOf(s, ix[h], h, AllInputs(txs)))
  }

  ghost predicate IsStored(tx: Tx, pos: TxPos, ix: Index)
    requires tx.id in ix
  {
    ix[tx.id].pos == pos && |ix[tx.id].vSpent| == |tx.vout|
  }

  ghost predicate MarksOf(s: Setting, e: TxIndex, h: TxId, spent: seq<OutPoint>) {
    forall n: nat :: n < |e.vSpent| ==>
      (e.vSpent[n].Some? <==>
        (h in s.db && n < |s.db[h].vSpent| && s.db[h].vSpent[n].Some?) || OutPoint(h, n) in spent)
  }

  lemma {:induction false} InputsKnown(s: Setting, txs: seq<Tx>, p: OutPoint)
    requires ParentsFirst(s, txs) && p in AllInputs(txs)
    ensures p.hash in s.db || p.hash in Ids(txs)
  {
    var front := txs[..|txs| - 1];
    var tx := txs[|txs| - 1];
    if p in tx.vin {
      var k :| 0 <= k < |tx.vin| && tx.vin[k] == p;
      assert Sourced(s, front, p);
      IdsPrefix(txs, |txs| - 1);
    } else {
      ParentsFirstPrefix(s, txs, |txs| - 1);
      InputsKnown(s, front, p);
      IdsPrefix(txs, |txs| - 1);
    }
  }

  lemma IdsPrefix(txs: seq<Tx>, k: nat)
    requires k <= |txs|
    ensures Ids(txs[..k]) <= Ids(txs)
  {
    forall id | id in Ids(txs[..k])
      ensures id in Ids(txs)
    {
      var j: nat :| j < k && txs[..k][j].id == id;
      assert txs[j].id == id;
    }
  }

  lemma ParentsFirstPrefix(s: Setting, txs: seq<Tx>, k: nat)
    requires k <= |txs| && ParentsFirst(s, txs)
    ensures ParentsFirst(s, txs[..k])
  {
    var front := txs[..k];
    forall j, i | 0 <= j < |front| && 0 <= i < |front[j].vin|
      ensures Sourced(s, front[..j], front[j].vin[i])
    {
      assert front[..j] == txs[..j];
      assert Sourced(s, txs[..j], txs[j].vin[i]);
    }
  }

  lemma FreshId(txs: seq<Tx>, k: nat)
    requires DistinctTxs(txs) && k < |txs|
    ensures txs[k].id !in Ids(txs[..k])
    ensures txs[..k + 1] == txs[..k] + [txs[k]]
  {
  }

  /** The next transaction's input, as connecting the block sees it. */
  lemma InputSeen(s: Setting, coinbase: Tx, bi: BlockIndex, txs: seq<Tx>, ix: Index, p: OutPoint)
    requires IndexAfter(s, coinbase, bi, txs, ix) && bi.block.vtx != [] && txs <= bi.block.vtx[1..]
    requires Candidates(s, txs) && s.Available(p) && Sourced(s, txs, p)
    ensures Found(ix, p) && OutputFor(ix, p).nValue == s.ValueOf(p) && TxAt(ix[p.hash].pos).value == s.Prev(p)
    ensures p !in AllInputs(txs) ==> Unspent(ix, p)
    ensures p.hash in s.db ==> ix[p.hash].pos == s.db[p.hash].pos
    ensures p.hash !in s.db ==> !s.Prev(p).IsCoinBase() && !s.Prev(p).IsCoinStake()
  {
    assert p.hash in ix;
    assert MarksOf(s, ix[p.hash], p.hash, AllInputs(txs));
    if p.hash !in s.db {
      var k: nat :| k < |txs| && txs[k].id == p.hash;
      assert s.Candidate(txs[k]) && IsStored(txs[k], TxPos(bi, k + 1), ix);
      assert bi.block.vtx[1..][k] == txs[k];
    }
  }

  /** A window that ends one block later reaches no further back. */
  lemma {:induction false} ConfirmedMonotone(target: BlockIndex, from: BlockIndex, depth: nat)
    requires ConfirmedWithin(target, from, depth)
    ensures ConfirmedWithin(target, from, depth + 1)
  {
    if from != target {
      ConfirmedMonotone(target, from.pprev, depth - 1);
    }
  }

  lemma InputStillFine(s: Setting, coinbase: Tx, bi: BlockIndex, txs: seq<Tx>, ix: Index, tx: Tx, p: OutPoint)
    requires IndexAfter(s, coinbase, bi, txs, ix) && bi.block.vtx != [] && txs <= bi.block.vtx[1..]
    requires Candidates(s, txs) && s.Available(p) && Sourced(s, txs, p)
    requires InputFine(s, tx, p)
    requires bi.Child? && bi.pprev == s.pindexPrev && forall h :: h in s.db ==> s.db[h].pos.bi != bi
    ensures Found(ix, p) && InputAcceptable(ix, tx, p, bi)
  {
    InputSeen(s, coinbase, bi, txs, ix, p);
    if p.hash in s.db && ConfirmedWithin(s.db[p.hash].pos.bi, bi, COINBASE_MATURITY) {
      ConfirmedMonotone(s.db[p.hash].pos.bi, bi.pprev, COINBASE_MATURITY - 1);
    }
  }

  lemma {:induction false} SameTotal(s: Setting, ix: Index, vin: seq<OutPoint>)
    requires s.AllAvailable(vin) && AllFound(ix, vin)
    requires forall k :: 0 <= k < |vin| ==> OutputFor(ix, vin[k]).nValue == s.ValueOf(vin[k])
    ensures InputSum(ix, vin) == s.TotalIn(vin)
  {
    if vin != [] {
      var front := vin[..|vin| - 1];
      assert forall p <- front :: p in vin;
      SameTotal(s, ix, front);
    }
  }

  /** The next transaction connects. */
  lemma NextConnects(s: Setting, coinbase: Tx, bi: BlockIndex, txs: seq<Tx>, k: nat, ix: Index)
    requires Assembled(s, coinbase, txs, bi) && k < |txs|
    requires IndexAfter(s, coinbase, bi, txs[..k], ix)
    ensures InputsConnect(ix, txs[k], bi)
    ensures InputSum(ix, txs[k].vin) == s.TotalIn(txs[k].vin)
  {
    hide IndexAfter, InputAcceptable, InputFine, Unspent, Sourced, Setting.TotalIn, InputSum, OutputSum, Ids, AllInputs,
      DistinctOutPoints, Found, Setting.Available, Setting.ValueOf, OutputFor, DistinctTxs;
    var tx, front := txs[k], txs[..k];
    assert s.Candidate(tx);
    assert front <= bi.block.vtx[1..] by {
      assert bi.block.vtx[1..] == txs;
    }
    forall i | 0 <= i < |tx.vin|
      ensures Found(ix, tx.vin[i]) && InputAcceptable(ix, tx, tx.vin[i], bi) && Unspent(ix, tx.vin[i])
      ensures OutputFor(ix, tx.vin[i]).nValue == s.ValueOf(tx.vin[i])
    {
      assert Sourced(s, front, tx.vin[i]) && s.Available(tx.vin[i]) && FineAt(s, tx, i);
      InputSeen(s, coinbase, bi, front, ix, tx.vin[i]);
      InputStillFine(s, coinbase, bi, front, ix, tx, tx.vin[i]);
      NotSpentEarlier(txs, k, i);
    }
    DistinctWithin(txs, k);
    TotalInRange(s, tx);
    SameTotal(s, ix, tx.vin);
  }

  lemma TotalInRange(s: Setting, tx: Tx)
    requires s.AllAvailable(tx.vin) && InputsFine(s, tx, |tx.vin|)
    ensures MoneyRange(s.TotalIn(tx.vin))
  {
    if tx.vin != [] {
      var k := |tx.vin| - 1;
      assert FineAt(s, tx, k);
      assert tx.vin[..k + 1] == tx.vin;
    }
  }

  lemma {:induction false} PrefixInputs(txs: seq<Tx>, k: nat)
    requires k < |txs|
    ensures AllInputs(txs[..k]) + txs[k].vin <= AllInputs(txs)
  {
    if k == |txs| - 1 {
    } else {
      PrefixInputs(txs[..|txs| - 1], k);
      assert txs[..|txs| - 1][..k] == txs[..k];
    }
  }

  lemma NotSpentEarlier(txs: seq<Tx>, k: nat, i: nat)
    requires k < |txs| && i < |txs[k].vin| && DistinctOutPoints(AllInputs(txs))
    ensures txs[k].vin[i] !in AllInputs(txs[..k])
  {
    hide AllInputs, DistinctOutPoints;
    PrefixInputs(txs, k);
    DistinctParts(AllInputs(txs[..k]), txs[k].vin, AllInputs(txs));
  }

  lemma DistinctWithin(txs: seq<Tx>, k: nat)
    requires k < |txs| && DistinctOutPoints(AllInputs(txs))
    ensures DistinctOutPoints(txs[k].vin)
  {
    hide AllInputs, DistinctOutPoints;
    PrefixInputs(txs, k);
    DistinctParts(AllInputs(txs[..k]), txs[k].vin, AllInputs(txs));
  }

  lemma DistinctParts(a: seq<OutPoint>, b: seq<OutPoint>, all: seq<OutPoint>)
    requires a + b <= all && DistinctOutPoints(all)
    ensures DistinctOutPoints(b) && forall i :: 0 <= i < |b| ==> b[i] !in a
  {
    forall i | 0 <= i < |b|
      ensures b[i] == all[|a| + i]
    {
      assert (a + b)[|a| + i] == b[i];
    }
    forall i | 0 <= i < |a|
      ensures a[i] == all[i]
    {
      assert (a + b)[i] == a[i];
    }
  }

  /** What connecting the next transaction leaves in the index. */
  lemma NextIndex(s: Setting, coinbase: Tx, bi: BlockIndex, txs: seq<Tx>, k: nat, ix: Index)
    requires Assembled(s, coinbase, txs, bi) && k < |txs|
    requires IndexAfter(s, coinbase, bi, txs[..k], ix)
    ensures var pos := TxPos(bi, k + 1);
      IndexAfter(s, coinbase, bi, txs[..k + 1],
                 MarkSpent(ix, txs[k].vin, pos)[txs[k].id := FreshEntry(pos, |txs[k].vout|)])
  {
    hide ParentsFirst, AllChecked, Sourced, Setting.Candidate, Ids, AllInputs;
    var tx, pos, front, longer := txs[k], TxPos(bi, k + 1), txs[..k], txs[..k + 1];
    var ix' := MarkSpent(ix, tx.vin, pos)[tx.id := FreshEntry(pos, |tx.vout|)];
    NewId(s, coinbase, bi, txs, k);
    AllInputsSnoc(front, tx);
    forall h | h in ix'
      ensures MarksOf(s, ix'[h], h, AllInputs(longer))
    {
      if h == tx.id {
        NewIdUnspent(s, coinbase, bi, txs, k);
      } else {
        assert MarksOf(s, ix[h], h, AllInputs(front));
      }
    }
    forall j | 0 <= j < |longer|
      ensures longer[j].id in ix' && IsStored(longer[j], TxPos(bi, j + 1), ix')
    {
      if j < k {
        assert longer[j] == front[j];
        IdAt(front, j);
        assert IsStored(front[j], TxPos(bi, j + 1), ix);
      }
    }
  }

  lemma IdAt(txs: seq<Tx>, j: nat)
    requires j < |txs|
    ensures txs[j].id in Ids(txs)
  {
  }

  lemma NewId(s: Setting, coinbase: Tx, bi: BlockIndex, txs: seq<Tx>, k: nat)
    requires Assembled(s, coinbase, txs, bi) && k < |txs|
    ensures txs[k].id !in s.db && txs[k].id !in Ids(txs[..k]) && txs[k].id != coinbase.id
    ensures txs[..k + 1] == txs[..k] + [txs[k]]
  {
    assert s.Candidate(txs[k]);
    FreshId(txs, k);
    IdAt(txs, k);
  }

  lemma NewIdUnspent(s: Setting, coinbase: Tx, bi: BlockIndex, txs: seq<Tx>, k: nat)
    requires Assembled(s, coinbase, txs, bi) && k < |txs|
    ensures forall n: nat :: OutPoint(txs[k].id, n) !in AllInputs(txs[..k + 1])
  {
    NewId(s, coinbase, bi, txs, k);
    AllInputsSnoc(txs[..k], txs[k]);
    ParentsFirstPrefix(s, txs, k);
    forall n: nat
      ensures OutPoint(txs[k].id, n) !in AllInputs(txs[..k + 1])
    {
      var p := OutPoint(txs[k].id, n);
      if p in AllInputs(txs[..k]) {
        InputsKnown(s, txs[..k], p);
      }
      OwnInputsKnown(s, txs, k);
    }
  }

  lemma OwnInputsKnown(s: Setting, txs: seq<Tx>, k: nat)
    requires ParentsFirst(s, txs) && k < |txs|
    ensures forall p <- txs[k].vin :: p.hash in s.db || p.hash in Ids(txs[..k])
  {
    forall p | p in txs[k].vin
      ensures p.hash in s.db || p.hash in Ids(txs[..k])
    {
      var i :| 0 <= i < |txs[k].vin| && txs[k].vin[i] == p;
      assert Sourced(s, txs[..k], txs[k].vin[i]);
    }
  }

  lemma ConnectStep(ix: Index, bi: BlockIndex, k: nat)
    requires k < |bi.block.vtx| && ConnectTxs(ix, bi, k).Some?
    requires var tx := bi.block.vtx[k]; !tx.IsCoinBase() && !tx.IsCoinStake()
    requires InputsConnect(ConnectTxs(ix, bi, k).value.ix, bi.block.vtx[k], bi)
    ensures ConnectTxs(ix, bi, k + 1).Some?
    ensures var tx, pr, pr' := bi.block.vtx[k], ConnectTxs(ix, bi, k).value, ConnectTxs(ix, bi, k + 1).value;
      && pr'.ix == MarkSpent(pr.ix, tx.vin, TxPos(bi, k))[tx.id := FreshEntry(TxPos(bi, k), |tx.vout|)]
      && pr'.nFees == pr.nFees + InputSum(pr.ix, tx.vin) - OutputSum(tx.vout)
  {
  }

  /** All of the block's transactions connect, and the fees tallied are those the assembly reported. */
  lemma {:induction false} SelectionConnects(s: Setting, coinbase: Tx, bi: BlockIndex, txs: seq<Tx>, k: nat)
    requires Assembled(s, coinbase, txs, bi) && k <= |txs|
    ensures ConnectTxs(s.db, bi, k + 1).Some?
    ensures var pr := ConnectTxs(s.db, bi, k + 1).value;
      IndexAfter(s, coinbase, bi, txs[..k], pr.ix) && pr.nFees == FeeSum(s, txs[..k])
  {
    hide IndexAfter, InputsConnect, MarkSpent, FeeSum, AllChecked, ParentsFirst, DistinctTxs, DistinctOutPoints, Ids, AllInputs,
      ConnectTxs, InputSum, OutputSum, Setting.TotalIn;
    if k == 0 {
      FirstIndex(s, coinbase, bi, txs);
    } else {
      SelectionConnects(s, coinbase, bi, txs, k - 1);
      var tx := txs[k - 1];
      var pr := ConnectTxs(s.db, bi, k).value;
      NextConnects(s, coinbase, bi, txs, k - 1, pr.ix);
      NextIndex(s, coinbase, bi, txs, k - 1, pr.ix);
      assert bi.block.vtx[k] == tx;
      assert s.Candidate(tx);
      ConnectStep(s.db, bi, k);
      assert txs[..k] == txs[..k - 1] + [tx];
      CandidatesPrefix(s, txs, k - 1);
      SumsSnoc(s, txs[..k - 1], tx);
    }
  }

  lemma CandidatesPrefix(s: Setting, txs: seq<Tx>, k: nat)
    requires Candidates(s, txs) && k <= |txs|
    ensures Candidates(s, txs[..k])
  {
  }

  lemma FirstIndex(s: Setting, coinbase: Tx, bi: BlockIndex, txs: seq<Tx>)
    requires Assembled(s, coinbase, txs, bi)
    ensures ConnectTxs(s.db, bi, 1).Some?
    ensures var pr := ConnectTxs(s.db, bi, 1).value; IndexAfter(s, coinbase, bi, txs[..0], pr.ix) && pr.nFees == 0
    ensures FeeSum(s, txs[..0]) == 0
  {
    assert ConnectTxs(s.db, bi, 0) == Some(Start(s.db));
    assert bi.block.vtx[0] == coinbase;
  }

  /**
   * A proof-of-work block whose coinbase takes no more than the subsidy and the reported fees passes every check of
   * connecting it that is modelled, given the context-free ones.
   */
  lemma AssembledBlockAccepted(s: Setting, coinbase: Tx, bi: BlockIndex, txs: seq<Tx>)
    requires Assembled(s, coinbase, txs, bi) && CheckBlock(bi.block)
    requires OutputSum(coinbase.vout) <= WorkSubsidy(bi.Height()) + FeeSum(s, txs)
    ensures AfterConnect(s.db, bi).Some?
  {
    hide ConnectTxs, IndexAfter, AllChecked, ParentsFirst, DistinctTxs, DistinctOutPoints, Ids, AllInputs, FeeSum, OutputSum,
      CheckTransaction, WorkSubsidy;
    SelectionConnects(s, coinbase, bi, txs, |txs|);
    assert txs[..|txs|] == txs;
    if |txs| > 0 {
      assert bi.block.vtx[1] == txs[0] && s.Candidate(txs[0]);
    }
  }
}
