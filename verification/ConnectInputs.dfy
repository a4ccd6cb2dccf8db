/**
 * Connecting and disconnecting one transaction, as the code does it: inputs are
 * fetched once per previous transaction, and changes are queued in a map that
 * overlays the database until the whole block has been checked.
 */
module ConnectInputs {
  import opened Common
  import opened Transactions
  import opened TxIndexing
  import opened TxDatabase

  /** The previous transactions' index entries and contents, by hash. */
  type MapPrevTx = map<TxId, (TxIndex, Tx)>

  /** inputs holds what the index ix says about each key. */
  ghost predicate Fetched(ix: Index, inputs: MapPrevTx) {
    forall h :: h in inputs ==> h in ix && inputs[h].0 == ix[h] && TxAt(ix[h].pos) == Some(inputs[h].1)
  }

  ghost predicate CoversInputs(inputs: MapPrevTx, vin: seq<OutPoint>) {
    forall p <- vin :: p.hash in inputs
  }

  method FetchInputs(db: TxDb, queued: Index, tx: Tx) returns (ok: bool, inputs: MapPrevTx)
    ensures ok <==> tx.IsCoinBase() || AllFound(db.View() + queued, tx.vin)
    ensures Fetched(db.View() + queued, inputs)
    ensures ok && !tx.IsCoinBase() ==> CoversInputs(inputs, tx.vin)
  {
    ok, inputs := true, map[];
    if tx.IsCoinBase() {
      return;
    }
    ghost var ix := db.View() + queued;
    for i := 0 to |tx.vin|
      invariant ok && Fetched(ix, inputs)
      invariant CoversInputs(inputs, tx.vin[..i])
    {
      var h := tx.vin[i].hash;
      if h !in inputs {
        var entry;
        if h in queued {
          entry := Some(queued[h]);
        } else {
          entry := db.ReadTxIndex(h);
        }
        assert entry == Lookup(ix, h);
        if entry.None? || TxAt(entry.value.pos).None? {
          assert !Found(ix, tx.vin[i]);
          return false, inputs;
        }
        inputs := inputs[h := (entry.value, TxAt(entry.value.pos).value)];
      }
    }
    for i := 0 to |tx.vin|
      invariant forall p <- tx.vin[..i] :: Found(ix, p)
    {
      var p := tx.vin[i];
      if p.n >= |inputs[p.hash].1.vout| || p.n >= |inputs[p.hash].0.vSpent| {
        assert !Found(ix, tx.vin[i]);
        return false, inputs;
      }
    }
    assert tx.vin[..|tx.vin|] == tx.vin;
  }

  method IsConfirmedInNPrevBlocks(target: BlockIndex, from: BlockIndex, nMaxDepth: nat) returns (r: bool)
    ensures r == ConfirmedWithin(target, from, nMaxDepth)
  {
    var pindex, depth := from, 0;
    while depth < nMaxDepth
      invariant depth <= nMaxDepth
      invariant ConfirmedWithin(target, from, nMaxDepth) == ConfirmedWithin(target, pindex, nMaxDepth - depth)
    {
      if pindex == target {
        return true;
      }
      if pindex.Genesis? {
        return false;
      }
      pindex, depth := pindex.pprev, depth + 1;
    }
    return false;
  }

  lemma {:induction false} InputSumPrefix(ix: Index, vin: seq<OutPoint>, i: nat)
    requires i <= |vin| && AllFound(ix, vin)
    requires forall p <- vin :: OutputFor(ix, p).nValue >= 0
    ensures AllFound(ix, vin[..i]) && 0 <= InputSum(ix, vin[..i]) <= InputSum(ix, vin)
    decreases |vin|
  {
    assert AllFound(ix, vin[..i]) by { assert forall p <- vin[..i] :: p in vin; }
    if vin == [] {
    } else {
      var front := vin[..|vin| - 1];
      assert forall p <- front :: p in vin;
      if i < |vin| {
        assert front[..i] == vin[..i];
        InputSumPrefix(ix, front, i);
      } else {
        assert vin[..i] == vin;
        InputSumPrefix(ix, front, 0);
      }
      InputSumNonNegative(ix, front);
    }
  }

  lemma {:induction false} InputSumNonNegative(ix: Index, vin: seq<OutPoint>)
    requires AllFound(ix, vin)
    requires forall p <- vin :: OutputFor(ix, p).nValue >= 0
    ensures InputSum(ix, vin) >= 0
  {
    if vin != [] {
      assert forall p <- vin[..|vin| - 1] :: p in vin;
      InputSumNonNegative(ix, vin[..|vin| - 1]);
    }
  }

  /** A value or running total out of range dooms the whole transaction. */
  lemma PrefixOutOfRange(ix: Index, tx: Tx, i: nat, bi: BlockIndex)
    requires AllFound(ix, tx.vin) && i < |tx.vin| && AllFound(ix, tx.vin[..i + 1])
    requires !MoneyRange(OutputFor(ix, tx.vin[i]).nValue) || !MoneyRange(InputSum(ix, tx.vin[..i + 1]))
    ensures !((forall p <- tx.vin :: InputAcceptable(ix, tx, p, bi)) && MoneyRange(InputSum(ix, tx.vin)))
  {
    if forall p <- tx.vin :: InputAcceptable(ix, tx, p, bi) {
      assert InputAcceptable(ix, tx, tx.vin[i], bi);
      InputSumPrefix(ix, tx.vin, i + 1);
      InputSumNonNegative(ix, tx.vin[..i + 1]) by {
        assert forall p <- tx.vin[..i + 1] :: p in tx.vin;
      }
    }
  }

  ghost predicate AcceptableFirst(ix: Index, tx: Tx, i: nat, bi: BlockIndex)
    requires AllFound(ix, tx.vin) && i <= |tx.vin|
  {
    forall j :: 0 <= j < i ==> InputAcceptable(ix, tx, tx.vin[j], bi)
  }

  /** One input's maturity, timestamp and value. */
  method CheckInput(ghost ix: Index, entry: TxIndex, prev: Tx, tx: Tx, p: OutPoint, bi: BlockIndex) returns (ok: bool)
    requires Found(ix, p) && entry == ix[p.hash] && TxAt(entry.pos) == Some(prev)
    ensures ok <==> InputAcceptable(ix, tx, p, bi)
  {
    if prev.IsCoinBase() || prev.IsCoinStake() {
      var recent := IsConfirmedInNPrevBlocks(entry.pos.bi, bi, COINBASE_MATURITY);
      if recent {
        return false;
      }
    }
    return prev.nTime <= tx.nTime && MoneyRange(prev.vout[p.n].nValue);
  }

  /** The sum including the next input. */
  lemma NextSum(ix: Index, vin: seq<OutPoint>, i: nat)
    requires AllFound(ix, vin) && i < |vin|
    ensures AllFound(ix, vin[..i]) && AllFound(ix, vin[..i + 1]) && Found(ix, vin[i])
    ensures InputSum(ix, vin[..i + 1]) == InputSum(ix, vin[..i]) + OutputFor(ix, vin[i]).nValue
  {
    assert vin[..i + 1][..i] == vin[..i];
    assert vin[i] in vin && forall p <- vin[..i + 1] :: p in vin;
  }

  lemma NextAcceptable(ix: Index, tx: Tx, i: nat, bi: BlockIndex)
    requires AllFound(ix, tx.vin) && i < |tx.vin| && AcceptableFirst(ix, tx, i, bi) && Found(ix, tx.vin[i])
    ensures AcceptableFirst(ix, tx, i + 1, bi) <==> InputAcceptable(ix, tx, tx.vin[i], bi)
    ensures !InputAcceptable(ix, tx, tx.vin[i], bi) ==> !forall p <- tx.vin :: InputAcceptable(ix, tx, p, bi)
  {
    hide InputAcceptable;
    assert tx.vin[i] in tx.vin;
    if InputAcceptable(ix, tx, tx.vin[i], bi) {
      forall j | 0 <= j < i + 1
        ensures InputAcceptable(ix, tx, tx.vin[j], bi)
      {
        assert j < i ==> InputAcceptable(ix, tx, tx.vin[j], bi);
      }
    }
  }

  lemma AllAcceptable(ix: Index, tx: Tx, bi: BlockIndex)
    requires AllFound(ix, tx.vin) && AcceptableFirst(ix, tx, |tx.vin|, bi)
    ensures forall p <- tx.vin :: InputAcceptable(ix, tx, p, bi)
  {
    hide InputAcceptable;
  }

  lemma EmptySum(ix: Index)
    ensures AllFound(ix, []) && InputSum(ix, []) == 0
  {
  }

  /** The first loop of ConnectInputs: maturity, timestamps and values. */
  method CheckInputs(ghost ix: Index, inputs: MapPrevTx, tx: Tx, bi: BlockIndex) returns (ok: bool, nValueIn: int)
    requires AllFound(ix, tx.vin) && Fetched(ix, inputs) && CoversInputs(inputs, tx.vin)
    ensures ok <==> (forall p <- tx.vin :: InputAcceptable(ix, tx, p, bi)) && MoneyRange(InputSum(ix, tx.vin))
    ensures ok ==> nValueIn == InputSum(ix, tx.vin)
  {
    hide InputAcceptable, InputSum, AllFound;
    ok, nValueIn := true, 0;
    EmptySum(ix);
    assert tx.vin[..0] == [];
    for i := 0 to |tx.vin|
      invariant AcceptableFirst(ix, tx, i, bi) && AllFound(ix, tx.vin[..i])
      invariant nValueIn == InputSum(ix, tx.vin[..i]) && MoneyRange(nValueIn)
    {
      var p := tx.vin[i];
      NextSum(ix, tx.vin, i);
      var acceptable := CheckInput(ix, inputs[p.hash].0, inputs[p.hash].1, tx, p, bi);
      NextAcceptable(ix, tx, i, bi);
      nValueIn := nValueIn + inputs[p.hash].1.vout[p.n].nValue;
      if !acceptable {
        return false, nValueIn;
      }
      if !MoneyRange(nValueIn) {
        PrefixOutOfRange(ix, tx, i, bi);
        return false, nValueIn;
      }
    }
    AllAcceptable(ix, tx, bi);
    assert tx.vin[..|tx.vin|] == tx.vin;
  }

  /** One round of the spending loop, on the merged index. */
  lemma SpendStep(ix: Index, inputs: MapPrevTx, vin: seq<OutPoint>, i: nat, pos: TxPos)
    requires i < |vin| && Found(ix, vin[i]) && vin[i].hash in inputs
    requires Fetched(MarkSpent(ix, vin[..i], pos), inputs)
    ensures var p := vin[i]; var e := inputs[p.hash].0;
      && p.n < |e.vSpent|
      && (e.vSpent[p.n].Some? <==> p in vin[..i] || !Unspent(ix, p))
      && var e' := e.(vSpent := e.vSpent[p.n := Some(pos)]);
      && MarkSpent(ix, vin[..i + 1], pos) == MarkSpent(ix, vin[..i], pos)[p.hash := e']
      && Fetched(MarkSpent(ix, vin[..i + 1], pos), inputs[p.hash := (e', inputs[p.hash].1)])
  {
    MarkOne(ix, vin[..i], vin[i], pos);
    assert vin[..i + 1] == vin[..i] + [vin[i]];
  }

  ghost predicate UnspentFirst(ix: Index, vin: seq<OutPoint>, i: nat)
    requires AllFound(ix, vin) && i <= |vin|
  {
    forall j :: 0 <= j < i ==> Unspent(ix, vin[j])
  }

  lemma OverlayUpdate(db: Index, queued: Index, h: TxId, e: TxIndex)
    ensures db + queued[h := e] == (db + queued)[h := e]
  {
  }

  /** Appending one element to a distinct prefix. */
  lemma DistinctExtend(vin: seq<OutPoint>, i: nat)
    requires i < |vin| && DistinctOutPoints(vin[..i])
    ensures DistinctOutPoints(vin[..i + 1]) <==> vin[i] !in vin[..i]
    ensures DistinctOutPoints(vin) ==> vin[i] !in vin[..i]
  {
    assert vin[..i + 1] == vin[..i] + [vin[i]];
  }

  /** The second loop of ConnectInputs: spent marks, and their write-back to the queue. */
  method SpendInputs(ghost db: Index, fetched: MapPrevTx, queued0: Index, vin: seq<OutPoint>, pos: TxPos)
    returns (ok: bool, queued: Index)
    requires AllFound(db + queued0, vin)
    requires Fetched(db + queued0, fetched) && CoversInputs(fetched, vin)
    ensures ok <==> (forall p <- vin :: Unspent(db + queued0, p)) && DistinctOutPoints(vin)
    ensures ok ==> db + queued == MarkSpent(db + queued0, vin, pos)
  {
    ghost var ix := db + queued0;
    var inputs := fetched;
    queued := queued0;
    MarkNone(ix, pos);
    assert vin[..0] == [];
    for i := 0 to |vin|
      invariant db + queued == MarkSpent(ix, vin[..i], pos)
      invariant Fetched(MarkSpent(ix, vin[..i], pos), inputs) && inputs.Keys == fetched.Keys
      invariant DistinctOutPoints(vin[..i])
      invariant UnspentFirst(ix, vin, i)
    {
      var p := vin[i];
      assert Found(ix, p);
      SpendStep(ix, inputs, vin, i, pos);
      DistinctExtend(vin, i);
      var entry := inputs[p.hash].0;
      if entry.vSpent[p.n].Some? {
        return false, queued;
      }
      entry := entry.(vSpent := entry.vSpent[p.n := Some(pos)]);
      inputs := inputs[p.hash := (entry, inputs[p.hash].1)];
      OverlayUpdate(db, queued, p.hash, entry);
      queued := queued[p.hash := entry];
    }
    assert vin[..|vin|] == vin;
    ok := true;
  }

  /**
   * Takes the fetched inputs and the queued changes of the block so far, and
   * queues the new spent marks. `db` is the index below the queue; the code does
   * not read it here.
   */
  method ConnectInputs(ghost db: Index, fetched: MapPrevTx, queued0: Index, tx: Tx, pos: TxPos)
    returns (ok: bool, queued: Index)
    requires !tx.IsCoinBase() && AllFound(db + queued0, tx.vin)
    requires Fetched(db + queued0, fetched) && CoversInputs(fetched, tx.vin)
    ensures ok <==> InputsConnect(db + queued0, tx, pos.bi)
    ensures ok ==> db + queued == MarkSpent(db + queued0, tx.vin, pos)
  {
    var nValueIn;
    queued := queued0;
    ok, nValueIn := CheckInputs(db + queued0, fetched, tx, pos.bi);
    if !ok {
      return;
    }
    ok, queued := SpendInputs(db, fetched, queued0, tx.vin, pos);
    if ok && !tx.IsCoinStake() {
      ok := nValueIn >= OutputSum(tx.vout) && MoneyRange(nValueIn - OutputSum(tx.vout));
    }
  }

  method DisconnectInputs(db: TxDb, tx: Tx) returns (ok: bool)
    requires db.Valid() && db.active
    modifies db`batch
    ensures db.Valid()
    ensures ok <==> DisconnectTx(old(db.View()), tx).Some?
    ensures ok ==> db.View() == DisconnectTx(old(db.View()), tx).value
  {
    ghost var ix := db.View();
    if !tx.IsCoinBase() {
      MarkNone(ix, TxPos(Genesis(Block([], 0, 0)), 0));
      for i := 0 to |tx.vin|
        invariant db.Valid() && db.active
        invariant db.View() == UnmarkSpent(ix, tx.vin[..i])
        invariant forall p <- tx.vin[..i] :: p.hash in ix && p.n < |ix[p.hash].vSpent|
      {
        var p := tx.vin[i];
        var entry := db.ReadTxIndex(p.hash);
        if entry.None? || p.n >= |entry.value.vSpent| {
          assert !(p.hash in ix && p.n < |ix[p.hash].vSpent|);
          return false;
        }
        UnmarkOne(ix, tx.vin[..i], p);
        assert tx.vin[..i + 1] == tx.vin[..i] + [p];
        db.UpdateTxIndex(p.hash, entry.value.(vSpent := entry.value.vSpent[p.n := None]));
      }
      assert tx.vin[..|tx.vin|] == tx.vin;
    }
    db.EraseTxIndex(tx.id);
    return true;
  }
}
