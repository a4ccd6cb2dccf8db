/**
 * The selection loop of CreateNewBlock (src/miner.cpp:254-361): transactions leave the priority queue one by one,
 * and enter the block when they fit the limits and their inputs connect on top of those already in it.
 */
module BlockSelection {
  import opened Common
  import opened Transactions
  import opened TxIndexing
  import opened BlockAssembly
  import ConnectInputs

  /** An entry of the test index: `disk` is absent for a transaction that is only in memory. */
  datatype PoolIndex = PoolIndex(disk: Option<TxPos>, vSpent: seq<bool>)

  type TestPool = map<TxId, PoolIndex>

  type Inputs = map<TxId, (PoolIndex, Tx)>

  function Flags(vSpent: seq<Option<TxPos>>): (flags: seq<bool>)
    ensures |flags| == |vSpent| && forall n :: 0 <= n < |flags| ==> flags[n] == vSpent[n].Some?
  {
    seq(|vSpent|, n requires 0 <= n < |vSpent| => vSpent[n].Some?)
  }

  function EntryFor(s: Setting, testPool: TestPool, h: TxId): Option<PoolIndex> {
    if h in testPool then Some(testPool[h])
    else if h in s.db then Some(PoolIndex(Some(s.db[h].pos), Flags(s.db[h].vSpent)))
    else None
  }

  function TxFor(s: Setting, disk: Option<TxPos>, h: TxId): Option<Tx> {
    if disk.Some? then TxAt(disk.value) else if h in s.pool then Some(s.pool[h]) else None
  }

  // ---------- the test index as a function of the selection ----------

  ghost predicate EntryOk(s: Setting, e: PoolIndex, h: TxId, ids: set<TxId>, spent: seq<OutPoint>) {
    && (if h in s.db then e.disk == Some(s.db[h].pos) && |e.vSpent| == |s.db[h].vSpent|
        else e.disk == None && h in ids && h in s.pool && |e.vSpent| == |s.pool[h].vout|)
    && forall n: nat :: n < |e.vSpent| ==>
         (e.vSpent[n] <==> (h in s.db && s.db[h].vSpent[n].Some?) || OutPoint(h, n) in spent)
  }

  /** testPool marks exactly what the chain or `spent` spends, and knows the transactions `ids`. */
  ghost predicate Mirrors(s: Setting, testPool: TestPool, ids: set<TxId>, spent: seq<OutPoint>) {
    && (forall h :: h in testPool ==> EntryOk(s, testPool[h], h, ids, spent))
    && (forall h :: h in ids ==> h in testPool)
    && (forall k :: 0 <= k < |spent| ==> spent[k].hash in testPool)
  }

  /** p exists on the chain or in a selected transaction, and neither the chain nor a selected transaction spends it. */
  ghost predicate Free(s: Setting, ids: set<TxId>, spent: seq<OutPoint>, p: OutPoint) {
    && (if p.hash in s.db then s.OnDisk(p) && p.n < |s.db[p.hash].vSpent| && s.db[p.hash].vSpent[p.n].None?
        else p.hash in ids)
    && p !in spent
  }

  /** Maturity, time stamps and range of one input. */
  predicate InputFine(s: Setting, tx: Tx, p: OutPoint)
    requires s.Available(p)
  {
    && (s.Prev(p).IsCoinBase() || s.Prev(p).IsCoinStake() ==>
          !(p.hash in s.db && ConfirmedWithin(s.db[p.hash].pos.bi, s.pindexPrev, COINBASE_MATURITY)))
    && s.Prev(p).nTime <= tx.nTime
    && MoneyRange(s.ValueOf(p))
  }

  /** Input k is fine, and so is the sum up to it. */
  ghost predicate FineAt(s: Setting, tx: Tx, k: nat)
    requires s.AllAvailable(tx.vin) && k < |tx.vin|
  {
    InputFine(s, tx, tx.vin[k]) && MoneyRange(s.TotalIn(tx.vin[..k + 1]))
  }

  ghost predicate InputsFine(s: Setting, tx: Tx, i: nat)
    requires s.AllAvailable(tx.vin) && i <= |tx.vin|
  {
    forall k :: 0 <= k < i ==> FineAt(s, tx, k)
  }

  ghost predicate InputsFree(s: Setting, ids: set<TxId>, spent: seq<OutPoint>, tx: Tx, i: nat)
    requires i <= |tx.vin|
  {
    forall k :: 0 <= k < i ==> Free(s, ids, spent, tx.vin[k]) && s.signed(tx, k)
  }

  /** tx may join a block that already holds the transactions `ids` spending `spent`. */
  ghost predicate Connectable(s: Setting, ids: set<TxId>, spent: seq<OutPoint>, tx: Tx)
    requires s.AllAvailable(tx.vin)
  {
    && InputsFine(s, tx, |tx.vin|)
    && InputsFree(s, ids, spent, tx, |tx.vin|)
    && DistinctOutPoints(tx.vin)
    && s.Fee(tx) >= 0 && MoneyRange(s.Fee(tx))
  }

  // ---------- fetching ----------

  predicate Reachable(s: Setting, testPool: TestPool, p: OutPoint) {
    var e := EntryFor(s, testPool, p.hash);
    && e.Some?
    && TxFor(s, e.value.disk, p.hash).Some?
    && p.n < |TxFor(s, e.value.disk, p.hash).value.vout|
    && p.n < |e.value.vSpent|
  }

  ghost predicate Loaded(s: Setting, testPool: TestPool, inputs: Inputs) {
    forall h :: h in inputs ==>
      EntryFor(s, testPool, h) == Some(inputs[h].0) && TxFor(s, inputs[h].0.disk, h) == Some(inputs[h].1)
  }

  ghost predicate HasAll(inputs: Inputs, vin: seq<OutPoint>, i: nat)
    requires i <= |vin|
  {
    forall k :: 0 <= k < i ==> vin[k].hash in inputs
  }

  method FetchInputs(s: Setting, testPool: TestPool, tx: Tx) returns (ok: bool, inputs: Inputs)
    requires !tx.IsCoinBase()
    ensures ok <==> forall k :: 0 <= k < |tx.vin| ==> Reachable(s, testPool, tx.vin[k])
    ensures Loaded(s, testPool, inputs) && (ok ==> HasAll(inputs, tx.vin, |tx.vin|))
  {
    inputs := map[];
    for i := 0 to |tx.vin|
      invariant Loaded(s, testPool, inputs) && HasAll(inputs, tx.vin, i)
    {
      var h := tx.vin[i].hash;
      if h !in inputs {
        var e := EntryFor(s, testPool, h);
        if e.None? || TxFor(s, e.value.disk, h).None? {
          assert !Reachable(s, testPool, tx.vin[i]);
          return false, inputs;
        }
        inputs := inputs[h := (e.value, TxFor(s, e.value.disk, h).value)];
      }
    }
    for i := 0 to |tx.vin|
      invariant forall k :: 0 <= k < i ==> Reachable(s, testPool, tx.vin[k])
    {
      var p := tx.vin[i];
      if p.n >= |inputs[p.hash].1.vout| || p.n >= |inputs[p.hash].0.vSpent| {
        assert !Reachable(s, testPool, tx.vin[i]);
        return false, inputs;
      }
    }
    ok := true;
  }

  /** What is reachable through the test index is what the chain and the selection hold. */
  lemma ReachableMeans(s: Setting, testPool: TestPool, ids: set<TxId>, spent: seq<OutPoint>, p: OutPoint)
    requires Mirrors(s, testPool, ids, spent) && s.Available(p)
    ensures Reachable(s, testPool, p) <==>
            if p.hash in s.db then s.OnDisk(p) && p.n < |s.db[p.hash].vSpent| else p.hash in ids
    ensures Reachable(s, testPool, p) ==> TxFor(s, EntryFor(s, testPool, p.hash).value.disk, p.hash) == Some(s.Prev(p))
    ensures Reachable(s, testPool, p) ==> EntryFor(s, testPool, p.hash).value.disk.Some? == (p.hash in s.db)
    ensures Reachable(s, testPool, p) && p.hash in s.db ==>
              EntryFor(s, testPool, p.hash).value.disk == Some(s.db[p.hash].pos)
  {
    if p.hash in testPool {
      assert EntryOk(s, testPool[p.hash], p.hash, ids, spent);
    }
  }

  // ---------- connecting ----------

  /** Each input's previous transaction, as fetched. */
  ghost predicate Fetched(s: Setting, inputs: Inputs, vin: seq<OutPoint>)
    requires s.AllAvailable(vin)
  {
    forall k :: 0 <= k < |vin| ==> FetchedOne(s, inputs, vin[k])
  }

  ghost predicate FetchedOne(s: Setting, inputs: Inputs, p: OutPoint)
    requires s.Available(p)
  {
    && p.hash in inputs && inputs[p.hash].1 == s.Prev(p)
    && inputs[p.hash].0.disk == if p.hash in s.db then Some(s.db[p.hash].pos) else None
  }

  lemma FetchedAll(s: Setting, testPool: TestPool, ids: set<TxId>, spent: seq<OutPoint>, tx: Tx, inputs: Inputs)
    requires Mirrors(s, testPool, ids, spent) && s.AllAvailable(tx.vin)
    requires Loaded(s, testPool, inputs) && HasAll(inputs, tx.vin, |tx.vin|)
    requires forall k :: 0 <= k < |tx.vin| ==> Reachable(s, testPool, tx.vin[k])
    ensures Fetched(s, inputs, tx.vin)
  {
    forall k | 0 <= k < |tx.vin|
      ensures FetchedOne(s, inputs, tx.vin[k])
    {
      ReachableMeans(s, testPool, ids, spent, tx.vin[k]);
      var e := EntryFor(s, testPool, tx.vin[k].hash).value;
      if tx.vin[k].hash in testPool {
        assert EntryOk(s, e, tx.vin[k].hash, ids, spent);
      }
    }
  }

  lemma PrevValue(s: Setting, p: OutPoint)
    requires s.Available(p)
    ensures p.n < |s.Prev(p).vout| && s.Prev(p).vout[p.n].nValue == s.ValueOf(p)
  {
  }

  method GetValueIn(s: Setting, inputs: Inputs, tx: Tx) returns (nResult: int)
    requires s.AllAvailable(tx.vin) && Fetched(s, inputs, tx.vin)
    ensures nResult == s.TotalIn(tx.vin)
  {
    hide Setting.TotalIn, Setting.Available, Setting.ValueOf;
    nResult := 0;
    NothingYet(s, tx.vin, 0, map[]);
    for i := 0 to |tx.vin|
      invariant s.AllAvailable(tx.vin[..i]) && nResult == s.TotalIn(tx.vin[..i])
    {
      TotalsStep(s, tx.vin, i);
      assert FetchedOne(s, inputs, tx.vin[i]);
      PrevValue(s, tx.vin[i]);
      nResult := nResult + inputs[tx.vin[i].hash].1.vout[tx.vin[i].n].nValue;
    }
    assert tx.vin[..|tx.vin|] == tx.vin;
  }

  method CheckInput(s: Setting, entry: PoolIndex, prev: Tx, tx: Tx, p: OutPoint) returns (ok: bool)
    requires s.Available(p) && prev == s.Prev(p)
    requires entry.disk == if p.hash in s.db then Some(s.db[p.hash].pos) else None
    ensures ok <==> InputFine(s, tx, p)
  {
    if prev.IsCoinBase() || prev.IsCoinStake() {
      if entry.disk.Some? {
        var recent := ConnectInputs.IsConfirmedInNPrevBlocks(entry.disk.value.bi, s.pindexPrev, COINBASE_MATURITY);
        if recent {
          return false;
        }
      }
    }
    return prev.nTime <= tx.nTime && MoneyRange(prev.vout[p.n].nValue);
  }

  method CheckInputs(s: Setting, inputs: Inputs, tx: Tx) returns (ok: bool, nValueIn: int)
    requires s.AllAvailable(tx.vin) && Fetched(s, inputs, tx.vin)
    ensures ok <==> InputsFine(s, tx, |tx.vin|)
    ensures ok ==> nValueIn == s.TotalIn(tx.vin)
  {
    hide InputFine, InputsFine, Setting.TotalIn, Setting.Available, Setting.ValueOf;
    ok, nValueIn := true, 0;
    NothingYet(s, tx.vin, 0, map[]);
    NoneFine(s, tx);
    for i := 0 to |tx.vin|
      invariant s.AllAvailable(tx.vin[..i]) && nValueIn == s.TotalIn(tx.vin[..i])
      invariant InputsFine(s, tx, i)
    {
      var p := tx.vin[i];
      TotalsStep(s, tx.vin, i);
      assert FetchedOne(s, inputs, p);
      PrevValue(s, p);
      var fine := CheckInput(s, inputs[p.hash].0, inputs[p.hash].1, tx, p);
      nValueIn := nValueIn + inputs[p.hash].1.vout[p.n].nValue;
      FineStep(s, tx, i);
      if !fine || !MoneyRange(nValueIn) {
        return false, nValueIn;
      }
    }
    assert tx.vin[..|tx.vin|] == tx.vin;
  }

  lemma NoneFine(s: Setting, tx: Tx)
    requires s.AllAvailable(tx.vin)
    ensures InputsFine(s, tx, 0)
  {
  }

  /** The next input decides whether the first i + 1 are fine; one that is not spoils all. */
  lemma FineStep(s: Setting, tx: Tx, i: nat)
    requires s.AllAvailable(tx.vin) && i < |tx.vin| && InputsFine(s, tx, i)
    requires s.Available(tx.vin[i]) && s.AllAvailable(tx.vin[..i + 1])
    ensures InputsFine(s, tx, i + 1) <==> InputFine(s, tx, tx.vin[i]) && MoneyRange(s.TotalIn(tx.vin[..i + 1]))
    ensures !InputsFine(s, tx, i + 1) ==> !InputsFine(s, tx, |tx.vin|)
  {
    hide InputFine, Setting.TotalIn, Setting.Available;
    assert FineAt(s, tx, i) <==> InputFine(s, tx, tx.vin[i]) && MoneyRange(s.TotalIn(tx.vin[..i + 1]));
  }

  function Mark(e: PoolIndex, n: nat): PoolIndex
    requires n < |e.vSpent|
  {
    e.(vSpent := e.vSpent[n := true])
  }

  /** One more outpoint marked, in the test index and in the fetched copy. */
  lemma MarkStep(s: Setting, testPool: TestPool, ids: set<TxId>, spent: seq<OutPoint>, inputs: Inputs, p: OutPoint)
    requires Mirrors(s, testPool, ids, spent) && Loaded(s, testPool, inputs) && s.Available(p)
    requires p.hash in inputs && Reachable(s, testPool, p)
    ensures var e := inputs[p.hash].0;
      && p.n < |e.vSpent|
      && (!e.vSpent[p.n] <==> Free(s, ids, spent, p))
      && Mirrors(s, testPool[p.hash := Mark(e, p.n)], ids, spent + [p])
      && Loaded(s, testPool[p.hash := Mark(e, p.n)], inputs[p.hash := (Mark(e, p.n), inputs[p.hash].1)])
  {
    ReachableMeans(s, testPool, ids, spent, p);
    var e := inputs[p.hash].0;
    assert EntryOk(s, e, p.hash, ids, spent) by {
      if p.hash in testPool {
        assert EntryOk(s, testPool[p.hash], p.hash, ids, spent);
      } else {
        NotSpentHere(s, testPool, ids, spent, p.hash);
      }
    }
    var marked := testPool[p.hash := Mark(e, p.n)];
    forall h | h in marked
      ensures EntryOk(s, marked[h], h, ids, spent + [p])
    {
      assert h != p.hash ==> EntryOk(s, testPool[h], h, ids, spent);
    }
  }

  lemma NotSpentHere(s: Setting, testPool: TestPool, ids: set<TxId>, spent: seq<OutPoint>, h: TxId)
    requires Mirrors(s, testPool, ids, spent) && h !in testPool
    ensures forall n: nat :: OutPoint(h, n) !in spent
  {
  }

  /** Marking keeps everything reachable. */
  lemma StillReachable(s: Setting, testPool: TestPool, e: PoolIndex, h: TxId, n: nat, p: OutPoint)
    requires EntryFor(s, testPool, h) == Some(e) && n < |e.vSpent|
    ensures Reachable(s, testPool[h := Mark(e, n)], p) <==> Reachable(s, testPool, p)
  {
  }

  ghost predicate AllReachable(s: Setting, testPool: TestPool, vin: seq<OutPoint>) {
    forall k :: 0 <= k < |vin| ==> Reachable(s, testPool, vin[k])
  }

  lemma AllStillReachable(s: Setting, testPool: TestPool, e: PoolIndex, h: TxId, n: nat, vin: seq<OutPoint>)
    requires EntryFor(s, testPool, h) == Some(e) && n < |e.vSpent| && AllReachable(s, testPool, vin)
    ensures AllReachable(s, testPool[h := Mark(e, n)], vin)
  {
    forall k | 0 <= k < |vin|
      ensures Reachable(s, testPool[h := Mark(e, n)], vin[k])
    {
      StillReachable(s, testPool, e, h, n, vin[k]);
    }
  }

  /** The outpoint is free of the extended list exactly when it is free of the old one and not in the extension. */
  lemma FreeOfBoth(s: Setting, ids: set<TxId>, spent: seq<OutPoint>, vin: seq<OutPoint>, i: nat)
    requires i < |vin| && DistinctOutPoints(vin[..i])
    ensures Free(s, ids, spent + vin[..i], vin[i]) <==> Free(s, ids, spent, vin[i]) && vin[i] !in vin[..i]
    ensures DistinctOutPoints(vin[..i + 1]) <==> vin[i] !in vin[..i]
    ensures DistinctOutPoints(vin) ==> vin[i] !in vin[..i]
  {
    ConnectInputs.DistinctExtend(vin, i);
  }

  /** The marking loop of ConnectInputs. */
  method SpendInputs(s: Setting, fetched: Inputs, testPool0: TestPool, tx: Tx, ghost ids: set<TxId>, ghost spent: seq<OutPoint>)
    returns (ok: bool, testPool: TestPool)
    requires Mirrors(s, testPool0, ids, spent) && s.AllAvailable(tx.vin)
    requires Loaded(s, testPool0, fetched) && HasAll(fetched, tx.vin, |tx.vin|) && AllReachable(s, testPool0, tx.vin)
    ensures ok <==> InputsFree(s, ids, spent, tx, |tx.vin|) && DistinctOutPoints(tx.vin)
    ensures ok ==> Mirrors(s, testPool, ids, spent + tx.vin)
  {
    hide Mirrors, Free, Reachable, EntryFor, TxFor, Setting.Available;
    var inputs := fetched;
    testPool := testPool0;
    assert spent + tx.vin[..0] == spent;
    for i := 0 to |tx.vin|
      invariant Mirrors(s, testPool, ids, spent + tx.vin[..i]) && Loaded(s, testPool, inputs)
      invariant inputs.Keys == fetched.Keys && AllReachable(s, testPool, tx.vin)
      invariant DistinctOutPoints(tx.vin[..i]) && InputsFree(s, ids, spent, tx, i)
    {
      var p := tx.vin[i];
      MarkStep(s, testPool, ids, spent + tx.vin[..i], inputs, p);
      FreeOfBoth(s, ids, spent, tx.vin, i);
      var entry := inputs[p.hash].0;
      if entry.vSpent[p.n] {
        return false, testPool;
      }
      if !s.signed(tx, i) {
        return false, testPool;
      }
      AllStillReachable(s, testPool, entry, p.hash, p.n, tx.vin);
      assert spent + tx.vin[..i + 1] == spent + tx.vin[..i] + [p];
      entry := Mark(entry, p.n);
      inputs := inputs[p.hash := (entry, inputs[p.hash].1)];
      testPool := testPool[p.hash := entry];
    }
    assert tx.vin[..|tx.vin|] == tx.vin;
    ok := true;
  }

  // ---------- the block being filled ----------

  function Ids(txs: seq<Tx>): set<TxId> {
    set k: nat | k < |txs| :: txs[k].id
  }

  function AllInputs(txs: seq<Tx>): seq<OutPoint> {
    if txs == [] then [] else AllInputs(txs[..|txs| - 1]) + txs[|txs| - 1].vin
  }

  ghost predicate Candidates(s: Setting, txs: seq<Tx>) {
    forall k :: 0 <= k < |txs| ==> s.Candidate(txs[k])
  }

  ghost function FeeSum(s: Setting, txs: seq<Tx>): int
    requires Candidates(s, txs)
  {
    if txs == [] then 0 else FeeSum(s, txs[..|txs| - 1]) + s.Fee(txs[|txs| - 1])
  }

  function SizeSum(s: Setting, txs: seq<Tx>): nat {
    if txs == [] then 0 else SizeSum(s, txs[..|txs| - 1]) + s.size(txs[|txs| - 1])
  }

  function SigOps(s: Setting, tx: Tx): nat {
    s.legacySigOps(tx) + s.p2shSigOps(tx)
  }

  function SigOpSum(s: Setting, txs: seq<Tx>): nat {
    if txs == [] then 0 else SigOpSum(s, txs[..|txs| - 1]) + SigOps(s, txs[|txs| - 1])
  }

  /** Every input is on the chain and unspent there, or an output of an earlier transaction of the list. */
  ghost predicate ParentsFirst(s: Setting, txs: seq<Tx>) {
    forall j, k :: 0 <= j < |txs| && 0 <= k < |txs[j].vin| ==> Sourced(s, txs[..j], txs[j].vin[k])
  }

  ghost predicate Sourced(s: Setting, earlier: seq<Tx>, p: OutPoint) {
    if p.hash in s.db then s.OnDisk(p) && p.n < |s.db[p.hash].vSpent| && s.db[p.hash].vSpent[p.n].None?
    else p.hash in Ids(earlier) && p.hash in s.pool && p.n < |s.pool[p.hash].vout|
  }

  /** Each transaction passes the checks of ConnectInputs that do not depend on the others. */
  ghost predicate AllChecked(s: Setting, txs: seq<Tx>)
    requires Candidates(s, txs)
  {
    forall k :: 0 <= k < |txs| ==> InputsFine(s, txs[k], |txs[k].vin|) && s.Fee(txs[k]) >= 0 && MoneyRange(s.Fee(txs[k]))
  }

  /** The locals of the loop that describe the block. */
  datatype Draft = Draft(txs: seq<Tx>, testPool: TestPool, nBlockSize: nat, nBlockSigOps: nat, nFees: int)

  ghost predicate Sound(s: Setting, d: Draft) {
    && Candidates(s, d.txs) && DistinctTxs(d.txs)
    && Mirrors(s, d.testPool, Ids(d.txs), AllInputs(d.txs))
    && DistinctOutPoints(AllInputs(d.txs))
    && ParentsFirst(s, d.txs)
    && AllChecked(s, d.txs)
  }

  ghost predicate Tallied(s: Setting, d: Draft) {
    && Candidates(s, d.txs)
    && d.nFees == FeeSum(s, d.txs)
    && d.nBlockSize == 1000 + SizeSum(s, d.txs)
    && d.nBlockSigOps == 100 + SigOpSum(s, d.txs)
    && (d.txs == [] || (d.nBlockSize < s.nBlockMaxSize && d.nBlockSigOps < s.nMaxSigOps))
  }

  lemma AllInputsSnoc(txs: seq<Tx>, tx: Tx)
    ensures AllInputs(txs + [tx]) == AllInputs(txs) + tx.vin
    ensures Ids(txs + [tx]) == Ids(txs) + {tx.id}
  {
    var longer := txs + [tx];
    assert longer[..|longer| - 1] == txs;
    assert longer[|txs|] == tx;
    forall id | id in Ids(txs)
      ensures id in Ids(longer)
    {
      var k: nat :| k < |txs| && txs[k].id == id;
      assert longer[k].id == id;
    }
  }

  lemma DistinctTxsSnoc(txs: seq<Tx>, tx: Tx)
    requires DistinctTxs(txs) && tx.id !in Ids(txs)
    ensures DistinctTxs(txs + [tx])
  {
    forall k: nat | k < |txs|
      ensures txs[k].id in Ids(txs)
    {
    }
  }

  lemma DistinctJoin(a: seq<OutPoint>, b: seq<OutPoint>)
    requires DistinctOutPoints(a) && DistinctOutPoints(b)
    requires forall k :: 0 <= k < |b| ==> b[k] !in a
    ensures DistinctOutPoints(a + b)
  {
  }

  /** The new transaction enters the test index under its own hash. */
  lemma MirrorsNew(s: Setting, testPool: TestPool, ids: set<TxId>, spent: seq<OutPoint>, tx: Tx)
    requires Mirrors(s, testPool, ids, spent)
    requires s.Candidate(tx) && tx.id !in ids
    ensures Mirrors(s, testPool[tx.id := PoolIndex(None, seq(|tx.vout|, _ => false))], ids + {tx.id}, spent)
  {
    var entry := PoolIndex(None, seq(|tx.vout|, _ => false));
    var more := testPool[tx.id := entry];
    forall k | 0 <= k < |spent|
      ensures spent[k].hash != tx.id
    {
      assert EntryOk(s, testPool[spent[k].hash], spent[k].hash, ids, spent);
    }
    forall h | h in more
      ensures EntryOk(s, more[h], h, ids + {tx.id}, spent)
    {
      assert h != tx.id ==> EntryOk(s, testPool[h], h, ids, spent);
    }
  }

  lemma ParentsFirstSnoc(s: Setting, txs: seq<Tx>, tx: Tx)
    requires ParentsFirst(s, txs)
    requires forall k :: 0 <= k < |tx.vin| ==> Sourced(s, txs, tx.vin[k])
    ensures ParentsFirst(s, txs + [tx])
  {
    var longer := txs + [tx];
    forall j, k | 0 <= j < |longer| && 0 <= k < |longer[j].vin|
      ensures Sourced(s, longer[..j], longer[j].vin[k])
    {
      assert longer[..j] == txs[..j];
      assert txs[..|txs|] == txs;
      if j < |txs| {
        assert Sourced(s, txs[..j], txs[j].vin[k]);
      }
    }
  }

  lemma FreeMeansSourced(s: Setting, testPool: TestPool, txs: seq<Tx>, spent: seq<OutPoint>, p: OutPoint)
    requires Mirrors(s, testPool, Ids(txs), spent) && s.Available(p)
    requires Reachable(s, testPool, p) && Free(s, Ids(txs), spent, p)
    ensures Sourced(s, txs, p)
  {
    ReachableMeans(s, testPool, Ids(txs), spent, p);
  }

  /** Adding a transaction that connects keeps the draft sound. */
  lemma SoundSnoc(s: Setting, d: Draft, tx: Tx, marked: TestPool, d': Draft)
    requires Sound(s, d) && s.Candidate(tx) && tx.id !in Ids(d.txs)
    requires AllReachable(s, d.testPool, tx.vin)
    requires Connectable(s, Ids(d.txs), AllInputs(d.txs), tx)
    requires Mirrors(s, marked, Ids(d.txs), AllInputs(d.txs) + tx.vin)
    requires d'.txs == d.txs + [tx]
    requires d'.testPool == marked[tx.id := PoolIndex(None, seq(|tx.vout|, _ => false))]
    ensures Sound(s, d')
  {
    hide Mirrors, ParentsFirst, Sourced, Reachable, Ids, DistinctOutPoints, AllInputs, DistinctTxs, InputsFine,
      Setting.Available, Setting.TotalIn, OutputSum;
    AllInputsSnoc(d.txs, tx);
    forall k | 0 <= k < |tx.vin|
      ensures tx.vin[k] !in AllInputs(d.txs) && Sourced(s, d.txs, tx.vin[k])
    {
      assert Free(s, Ids(d.txs), AllInputs(d.txs), tx.vin[k]);
      FreeMeansSourced(s, d.testPool, d.txs, AllInputs(d.txs), tx.vin[k]);
    }
    DistinctJoin(AllInputs(d.txs), tx.vin);
    MirrorsNew(s, marked, Ids(d.txs), AllInputs(d.txs) + tx.vin, tx);
    ParentsFirstSnoc(s, d.txs, tx);
    DistinctTxsSnoc(d.txs, tx);
  }

  lemma SumsSnoc(s: Setting, txs: seq<Tx>, tx: Tx)
    requires Candidates(s, txs) && s.Candidate(tx)
    ensures Candidates(s, txs + [tx])
    ensures FeeSum(s, txs + [tx]) == FeeSum(s, txs) + s.Fee(tx)
    ensures SizeSum(s, txs + [tx]) == SizeSum(s, txs) + s.size(tx)
    ensures SigOpSum(s, txs + [tx]) == SigOpSum(s, txs) + SigOps(s, tx)
  {
    var longer := txs + [tx];
    assert longer[..|longer| - 1] == txs;
  }

  // ---------- one transaction from the queue ----------

  /** Size, legacy signature operations, time stamp, and the fee once the block is sorted by fee. */
  predicate WithinLimits(s: Setting, nCoinbaseTime: nat, nNow: nat, fSortedByFee: bool, d: Draft, r: TxPriority) {
    && d.nBlockSize + s.size(r.tx) < s.nBlockMaxSize
    && d.nBlockSigOps + s.legacySigOps(r.tx) < s.nMaxSigOps
    && r.tx.nTime <= nNow && (s.fProofOfStake ==> r.tx.nTime <= nCoinbaseTime)
    && !(fSortedByFee && r.dFeePerKb < s.nMinTxFee as real && d.nBlockSize + s.size(r.tx) >= s.nBlockMinSize)
  }

  predicate PastPriority(s: Setting, d: Draft, r: TxPriority) {
    d.nBlockSize + s.size(r.tx) >= s.nBlockPrioritySize || r.dPriority < (COIN * 144 / 250) as real
  }

  /** A rejected transaction leaves the block as it was; an accepted one is appended to it. */
  method ConnectToDraft(s: Setting, d: Draft, tx: Tx) returns (taken: bool, d': Draft)
    requires Sound(s, d) && Tallied(s, d) && s.Candidate(tx) && tx.id !in Ids(d.txs)
    requires d.nBlockSize + s.size(tx) < s.nBlockMaxSize
    ensures taken <==> Connectable(s, Ids(d.txs), AllInputs(d.txs), tx) && d.nBlockSigOps + SigOps(s, tx) < s.nMaxSigOps
    ensures Sound(s, d') && Tallied(s, d')
    ensures d'.txs == if taken then d.txs + [tx] else d.txs
  {
    hide Mirrors, ParentsFirst, Ids, AllInputs, FeeSum, SizeSum, SigOpSum, Reachable, Loaded, HasAll, InputFine, Free,
      DistinctOutPoints, DistinctTxs, AllChecked, Setting.Available, Setting.TotalIn, OutputSum, EntryFor;
    d' := d;
    ghost var ids, spent := Ids(d.txs), AllInputs(d.txs);
    var ok, inputs := FetchInputs(s, d.testPool, tx);
    if !ok {
      Unreachable(s, d.testPool, ids, spent, tx);
      return false, d;
    }
    FetchedAll(s, d.testPool, ids, spent, tx, inputs);
    var nValueIn := GetValueIn(s, inputs, tx);
    var nTxFees := nValueIn - OutputSum(tx.vout);
    var nTxSigOps := s.legacySigOps(tx) + s.p2shSigOps(tx);
    if d.nBlockSigOps + nTxSigOps >= s.nMaxSigOps {
      return false, d;
    }
    ok, nValueIn := CheckInputs(s, inputs, tx);
    if !ok {
      return false, d;
    }
    var marked;
    ok, marked := SpendInputs(s, inputs, d.testPool, tx, ids, spent);
    if !ok || nValueIn < OutputSum(tx.vout) || !MoneyRange(nValueIn - OutputSum(tx.vout)) {
      return false, d;
    }
    var testPool := marked[tx.id := PoolIndex(None, seq(|tx.vout|, _ => false))];
    d' := Draft(d.txs + [tx], testPool, d.nBlockSize + s.size(tx), d.nBlockSigOps + nTxSigOps, d.nFees + nTxFees);
    SoundSnoc(s, d, tx, marked, d');
    SumsSnoc(s, d.txs, tx);
    taken := true;
  }

  lemma Unreachable(s: Setting, testPool: TestPool, ids: set<TxId>, spent: seq<OutPoint>, tx: Tx)
    requires Mirrors(s, testPool, ids, spent) && s.Candidate(tx)
    requires !(forall k :: 0 <= k < |tx.vin| ==> Reachable(s, testPool, tx.vin[k]))
    ensures !Connectable(s, ids, spent, tx)
  {
    var k :| 0 <= k < |tx.vin| && !Reachable(s, testPool, tx.vin[k]);
    ReachableMeans(s, testPool, ids, spent, tx.vin[k]);
    assert !Free(s, ids, spent, tx.vin[k]);
    assert !InputsFree(s, ids, spent, tx, |tx.vin|);
  }

  method Consider(s: Setting, nCoinbaseTime: nat, nNow: nat, fSortedByFee0: bool, d: Draft, r: TxPriority)
    returns (taken: bool, fSortedByFee: bool, d': Draft)
    requires Sound(s, d) && Tallied(s, d) && s.Candidate(r.tx) && r.tx.id !in Ids(d.txs)
    ensures taken <==>
      && WithinLimits(s, nCoinbaseTime, nNow, fSortedByFee0, d, r)
      && Connectable(s, Ids(d.txs), AllInputs(d.txs), r.tx)
      && d.nBlockSigOps + SigOps(s, r.tx) < s.nMaxSigOps
    ensures fSortedByFee <==>
      fSortedByFee0 || (WithinLimits(s, nCoinbaseTime, nNow, fSortedByFee0, d, r) && PastPriority(s, d, r))
    ensures Sound(s, d') && Tallied(s, d')
    ensures d'.txs == if taken then d.txs + [r.tx] else d.txs
  {
    hide Sound, Tallied, Connectable, Ids, AllInputs, SigOps, Setting.Candidate;
    taken, fSortedByFee, d' := false, fSortedByFee0, d;
    var nTxSize := s.size(r.tx);
    if d.nBlockSize + nTxSize >= s.nBlockMaxSize {
      return;
    }
    if d.nBlockSigOps + s.legacySigOps(r.tx) >= s.nMaxSigOps {
      return;
    }
    if r.tx.nTime > nNow || (s.fProofOfStake && r.tx.nTime > nCoinbaseTime) {
      return;
    }
    if fSortedByFee && r.dFeePerKb < s.nMinTxFee as real && d.nBlockSize + nTxSize >= s.nBlockMinSize {
      return;
    }
    if !fSortedByFee && (d.nBlockSize + nTxSize >= s.nBlockPrioritySize || r.dPriority < (COIN * 144 / 250) as real) {
      fSortedByFee := true;
    }
    taken, d' := ConnectToDraft(s, d, r.tx);
  }

  // ---------- the selection as a function of the order in which transactions are popped ----------

  /** The transactions taken so far, and the order the queue is in. */
  datatype Selection = Selection(txs: seq<Tx>, fSortedByFee: bool)

  /** r is within the limits on top of txs: size, legacy signature operations, time, and the fee in fee order. */
  ghost predicate Fits(s: Setting, nCoinbaseTime: nat, nNow: nat, sel: Selection, r: TxPriority) {
    var nSize := 1000 + SizeSum(s, sel.txs) + s.size(r.tx);
    && nSize < s.nBlockMaxSize && 100 + SigOpSum(s, sel.txs) + s.legacySigOps(r.tx) < s.nMaxSigOps
    && r.tx.nTime <= nNow && (s.fProofOfStake ==> r.tx.nTime <= nCoinbaseTime)
    && (sel.fSortedByFee && r.dFeePerKb < s.nMinTxFee as real ==> nSize < s.nBlockMinSize)
  }

  /** r joins the selection: within the limits, its inputs connect, and so do its signature operations. */
  ghost predicate Takes(s: Setting, nCoinbaseTime: nat, nNow: nat, sel: Selection, r: TxPriority)
    requires s.AllAvailable(r.tx.vin)
  {
    && Fits(s, nCoinbaseTime, nNow, sel, r)
    && Connectable(s, Ids(sel.txs), AllInputs(sel.txs), r.tx)
    && 100 + SigOpSum(s, sel.txs) + SigOps(s, r.tx) < s.nMaxSigOps
  }

  /** The priority size is used up, or the priority is below that of a coin a day old in 250 bytes. */
  ghost predicate TurnsToFees(s: Setting, sel: Selection, r: TxPriority) {
    1000 + SizeSum(s, sel.txs) + s.size(r.tx) >= s.nBlockPrioritySize || r.dPriority < 57_600_000.0
  }

  ghost function AfterPick(s: Setting, nCoinbaseTime: nat, nNow: nat, sel: Selection, r: TxPriority): Selection
    requires s.AllAvailable(r.tx.vin)
  {
    Selection(if Takes(s, nCoinbaseTime, nNow, sel, r) then sel.txs + [r.tx] else sel.txs,
              sel.fSortedByFee || (Fits(s, nCoinbaseTime, nNow, sel, r) && TurnsToFees(s, sel, r)))
  }

  ghost predicate PicksOk(s: Setting, picks: seq<TxPriority>) {
    forall n :: 0 <= n < |picks| ==> s.Candidate(picks[n].tx) && picks[n] == Rank(s, picks[n].tx)
  }

  /** The selection after these transactions were popped, the n-th at time clock(n). */
  ghost function Run(s: Setting, nCoinbaseTime: nat, clock: nat -> nat, picks: seq<TxPriority>): Selection
    requires PicksOk(s, picks)
  {
    if picks == [] then Selection([], s.nBlockPrioritySize == 0)
    else
      var n := |picks| - 1;
      AfterPick(s, nCoinbaseTime, clock(n), Run(s, nCoinbaseTime, clock, picks[..n]), picks[n])
  }

  ghost function PickIds(picks: seq<TxPriority>): set<TxId> {
    set k: nat | k < |picks| :: picks[k].tx.id
  }

  /** r is ready and not yet done, and below no other such transaction in the present order. */
  ghost predicate BestReady(s: Setting, sel: Selection, done: set<TxId>, r: TxPriority)
    requires s.PoolOk()
  {
    var ready := s.Ready(Ids(sel.txs)) - done;
    && r.tx.id in ready
    && forall id :: id in ready ==> !Below(sel.fSortedByFee, r, RankOf(s, id))
  }

  /** The n-th pick was the best ready transaction not popped before it. */
  ghost predicate IsPick(s: Setting, nCoinbaseTime: nat, clock: nat -> nat, picks: seq<TxPriority>, n: nat)
    requires s.PoolOk() && PicksOk(s, picks) && n < |picks|
  {
    BestReady(s, Run(s, nCoinbaseTime, clock, picks[..n]), PickIds(picks[..n]), picks[n])
  }

  ghost function RankOf(s: Setting, id: TxId): TxPriority
    requires s.PoolOk() && id in s.pool && s.Eligible(s.pool[id])
  {
    assert s.PooledOk(id);
    Rank(s, s.pool[id])
  }

  /** All picks are right, and nothing ready is left when they are done. */
  ghost predicate FullRun(s: Setting, nCoinbaseTime: nat, clock: nat -> nat, picks: seq<TxPriority>)
    requires s.PoolOk()
  {
    && PicksOk(s, picks) && (forall n :: 0 <= n < |picks| ==> IsPick(s, nCoinbaseTime, clock, picks, n))
    && s.Ready(Ids(Run(s, nCoinbaseTime, clock, picks).txs)) == PickIds(picks)
  }

  lemma RunStep(s: Setting, nCoinbaseTime: nat, clock: nat -> nat, picks: seq<TxPriority>, r: TxPriority)
    requires PicksOk(s, picks) && s.Candidate(r.tx) && r == Rank(s, r.tx)
    ensures PicksOk(s, picks + [r]) && PickIds(picks + [r]) == PickIds(picks) + {r.tx.id}
    ensures Run(s, nCoinbaseTime, clock, picks + [r]) ==
            AfterPick(s, nCoinbaseTime, clock(|picks|), Run(s, nCoinbaseTime, clock, picks), r)
  {
    var longer := picks + [r];
    assert longer[..|picks|] == picks && longer[|picks|] == r;
    assert forall n :: 0 <= n < |picks| ==> longer[n] == picks[n];
    forall id | id in PickIds(picks) + {r.tx.id}
      ensures id in PickIds(longer)
    {
      if id in PickIds(picks) {
        var k: nat :| k < |picks| && picks[k].tx.id == id;
        assert longer[k].tx.id == id;
      }
    }
  }

  lemma PicksStep(s: Setting, nCoinbaseTime: nat, clock: nat -> nat, picks: seq<TxPriority>, r: TxPriority)
    requires s.PoolOk() && PicksOk(s, picks) && s.Candidate(r.tx) && r == Rank(s, r.tx)
    requires forall n :: 0 <= n < |picks| ==> IsPick(s, nCoinbaseTime, clock, picks, n)
    requires BestReady(s, Run(s, nCoinbaseTime, clock, picks), PickIds(picks), r)
    ensures PicksOk(s, picks + [r])
    ensures forall n :: 0 <= n < |picks| + 1 ==> IsPick(s, nCoinbaseTime, clock, picks + [r], n)
  {
    hide Run, BestReady, PickIds, Setting.Ready, Rank, Ids;
    RunStep(s, nCoinbaseTime, clock, picks, r);
    var longer := picks + [r];
    forall n | 0 <= n < |picks| + 1
      ensures IsPick(s, nCoinbaseTime, clock, longer, n)
    {
      if n < |picks| {
        assert longer[..n] == picks[..n] && longer[n] == picks[n];
        assert IsPick(s, nCoinbaseTime, clock, picks, n);
      } else {
        assert longer[..n] == picks && longer[n] == r;
      }
    }
  }

  /** The draft's running totals are the sums over its transactions. */
  lemma ConsideredAs(s: Setting, nCoinbaseTime: nat, nNow: nat, d: Draft, fSortedByFee: bool, r: TxPriority)
    requires Tallied(s, d) && s.AllAvailable(r.tx.vin)
    ensures WithinLimits(s, nCoinbaseTime, nNow, fSortedByFee, d, r)
       <==> Fits(s, nCoinbaseTime, nNow, Selection(d.txs, fSortedByFee), r)
    ensures PastPriority(s, d, r) <==> TurnsToFees(s, Selection(d.txs, fSortedByFee), r)
    ensures d.nBlockSigOps == 100 + SigOpSum(s, d.txs)
  {
    hide SizeSum, SigOpSum, FeeSum;
  }

  /** What leaves the queue, seen from the transactions that are ready. */
  lemma PoppedIsPick(s: Setting, queue: seq<TxPriority>, at: nat, byFee: bool, ready: set<TxId>)
    requires s.PoolOk() && QueueOk(s, queue) && QueueIds(queue) == ready && at < |queue|
    requires forall k :: 0 <= k < |queue| ==> !Below(byFee, queue[at], queue[k])
    requires forall id :: id in ready ==> id in s.pool && s.Eligible(s.pool[id])
    ensures queue[at].tx.id in ready && queue[at] == Rank(s, queue[at].tx) && s.Candidate(queue[at].tx)
    ensures forall id :: id in ready ==> !Below(byFee, queue[at], RankOf(s, id))
  {
    hide Below, Rank;
    forall id | id in ready
      ensures !Below(byFee, queue[at], RankOf(s, id))
    {
      var k: nat :| k < |queue| && queue[k].tx.id == id;
      assert s.Candidate(queue[k].tx) && queue[k] == Rank(s, queue[k].tx);
    }
  }

  /** The picks so far are right, and considering them one by one gave this selection. */
  ghost predicate History(s: Setting, nCoinbaseTime: nat, clock: nat -> nat, picks: seq<TxPriority>, considered: seq<TxId>,
                          sel: Selection)
    requires s.PoolOk()
  {
    && PicksOk(s, picks) && (forall n :: 0 <= n < |picks| ==> IsPick(s, nCoinbaseTime, clock, picks, n))
    && Run(s, nCoinbaseTime, clock, picks) == sel && PickIds(picks) == IdSet(considered) && |picks| == |considered|
  }

  lemma HistoryFirst(s: Setting, nCoinbaseTime: nat, clock: nat -> nat)
    requires s.PoolOk()
    ensures History(s, nCoinbaseTime, clock, [], [], Selection([], s.nBlockPrioritySize == 0))
  {
  }

  lemma HistoryStep(s: Setting, nCoinbaseTime: nat, clock: nat -> nat, picks: seq<TxPriority>, considered: seq<TxId>,
                    sel: Selection, r: TxPriority)
    requires s.PoolOk() && History(s, nCoinbaseTime, clock, picks, considered, sel)
    requires s.Candidate(r.tx) && r == Rank(s, r.tx) && BestReady(s, sel, IdSet(considered), r)
    requires NoRepeats(considered) && r.tx.id !in IdSet(considered)
    ensures History(s, nCoinbaseTime, clock, picks + [r], considered + [r.tx.id],
                    AfterPick(s, nCoinbaseTime, clock(|picks|), sel, r))
  {
    hide Run, BestReady, PickIds, IdSet, Setting.Ready, Setting.PoolOk, Rank, IsPick, AfterPick;
    OneMoreId(considered, r.tx.id);
    RunStep(s, nCoinbaseTime, clock, picks, r);
    PicksStep(s, nCoinbaseTime, clock, picks, r);
  }

  // ---------- the order in which transactions are popped ----------

  /** In whole numbers: p pays no less per byte than q. */
  ghost predicate PaysMore(s: Setting, p: Tx, q: Tx)
    requires s.AllAvailable(p.vin) && s.AllAvailable(q.vin)
  {
    s.Fee(p) * s.size(q) >= s.Fee(q) * s.size(p)
  }

  /** In whole numbers: p's inputs are worth no less, by value and age, per byte than q's. */
  ghost predicate MoreAged(s: Setting, p: Tx, q: Tx)
    requires s.AllAvailable(p.vin) && s.AllAvailable(q.vin)
  {
    Weight(s, p.vin) * s.size(q) >= Weight(s, q.vin) * s.size(p)
  }

  lemma QuotientsOrdered(a: int, b: int, m: nat, n: nat)
    requires m > 0 && n > 0
    ensures a as real / m as real >= b as real / n as real <==> a * n >= b * m
    ensures a as real / (m as real / 1000.0) >= b as real / (n as real / 1000.0) <==> a * n >= b * m
  {
    var x, y := m as real, n as real;
    assert a as real / x * x * y == a as real * y == (a * n) as real;
    assert b as real / y * y * x == b as real * x == (b * m) as real;
    Scaled(a as real / x, b as real / y, x * y);
    assert a as real / (x / 1000.0) == a as real / x * 1000.0;
    assert b as real / (y / 1000.0) == b as real / y * 1000.0;
  }

  lemma Scaled(p: real, q: real, z: real)
    requires z > 0.0
    ensures p >= q <==> p * z >= q * z
  {
  }

  /**
   * Every pick is ready and was not popped before. Before the order turns to fees no such transaction is worth more by
   * value, age and size, and afterwards none pays more per byte; the other measure decides a draw.
   */
  lemma PickOrder(s: Setting, nCoinbaseTime: nat, clock: nat -> nat, picks: seq<TxPriority>, n: nat, id: TxId)
    requires s.PoolOk() && FullRun(s, nCoinbaseTime, clock, picks) && n < |picks|
    requires var sel := Run(s, nCoinbaseTime, clock, picks[..n]);
      id in s.Ready(Ids(sel.txs)) && forall k :: 0 <= k < n ==> picks[k].tx.id != id
    ensures id in s.pool && s.AllAvailable(s.pool[id].vin) && s.AllAvailable(picks[n].tx.vin)
    ensures var p, q := picks[n].tx, s.pool[id];
      if Run(s, nCoinbaseTime, clock, picks[..n]).fSortedByFee then
        PaysMore(s, p, q) && (PaysMore(s, q, p) ==> MoreAged(s, p, q))
      else MoreAged(s, p, q) && (MoreAged(s, q, p) ==> PaysMore(s, p, q))
  {
    hide Run, Weight, Setting.Fee, Setting.TotalIn, Ids, AfterPick;
    var sel := Run(s, nCoinbaseTime, clock, picks[..n]);
    ReadyIsAvailable(s, Ids(sel.txs), id);
    assert IsPick(s, nCoinbaseTime, clock, picks, n);
    assert id !in PickIds(picks[..n]);
    var p, q := picks[n].tx, s.pool[id];
    assert picks[n] == Rank(s, p) && RankOf(s, id) == Rank(s, q);
    QuotientsOrdered(s.Fee(p), s.Fee(q), s.size(p), s.size(q));
    QuotientsOrdered(Weight(s, p.vin), Weight(s, q.vin), s.size(p), s.size(q));
    QuotientsOrdered(s.Fee(q), s.Fee(p), s.size(q), s.size(p));
    QuotientsOrdered(Weight(s, q.vin), Weight(s, p.vin), s.size(q), s.size(p));
  }

  /** Without priority space the order is by fees from the start, and it never turns back. */
  lemma {:induction false} OrderTurnsOnce(s: Setting, nCoinbaseTime: nat, clock: nat -> nat, picks: seq<TxPriority>, m: nat)
    requires PicksOk(s, picks) && m <= |picks|
    ensures s.nBlockPrioritySize == 0 || Run(s, nCoinbaseTime, clock, picks[..m]).fSortedByFee ==>
      Run(s, nCoinbaseTime, clock, picks).fSortedByFee
  {
    hide Takes, Fits, TurnsToFees;
    if m == |picks| {
      assert picks[..m] == picks;
    }
    if picks != [] {
      var front := picks[..|picks| - 1];
      OrderTurnsOnce(s, nCoinbaseTime, clock, front, if m == |picks| then m - 1 else m);
      if m < |picks| {
        assert front[..m] == picks[..m];
      }
    }
  }

  /**
   * The k-th selected transaction was the n-th pick: not later than the clock then nor, in a stake block, than the
   * coinbase, and within the size; in fee order, one that pays less than the minimum went into the minimum size.
   */
  ghost predicate TakenAt(s: Setting, nCoinbaseTime: nat, clock: nat -> nat, picks: seq<TxPriority>, txs: seq<Tx>, k: nat,
                          n: nat)
    requires PicksOk(s, picks) && k < |txs|
  {
    && n < |picks| && picks[n].tx == txs[k]
    && var sel := Run(s, nCoinbaseTime, clock, picks[..n]);
       var nSize := 1000 + SizeSum(s, txs[..k + 1]);
       && sel.txs == txs[..k] && nSize < s.nBlockMaxSize
       && txs[k].nTime <= clock(n) && (s.fProofOfStake ==> txs[k].nTime <= nCoinbaseTime)
       && (sel.fSortedByFee && s.Fee(txs[k]) * 1000 < s.nMinTxFee * s.size(txs[k]) ==> nSize < s.nBlockMinSize)
  }

  lemma {:induction false} EachWasTaken(s: Setting, nCoinbaseTime: nat, clock: nat -> nat, picks: seq<TxPriority>, k: nat)
    requires PicksOk(s, picks) && k < |Run(s, nCoinbaseTime, clock, picks).txs|
    ensures exists n :: TakenAt(s, nCoinbaseTime, clock, picks, Run(s, nCoinbaseTime, clock, picks).txs, k, n)
  {
    hide Takes, Fits, TurnsToFees, Setting.Fee, Setting.Candidate, TakenAt, Rank;
    var m := |picks| - 1;
    var front := Run(s, nCoinbaseTime, clock, picks[..m]).txs;
    var txs := Run(s, nCoinbaseTime, clock, picks).txs;
    if k < |front| {
      EachWasTaken(s, nCoinbaseTime, clock, picks[..m], k);
      var n :| TakenAt(s, nCoinbaseTime, clock, picks[..m], front, k, n);
      TakenEarlier(s, nCoinbaseTime, clock, picks, m, front, txs, k, n);
    } else {
      TakenLast(s, nCoinbaseTime, clock, picks);
    }
  }

  lemma TakenEarlier(s: Setting, nCoinbaseTime: nat, clock: nat -> nat, picks: seq<TxPriority>, m: nat, front: seq<Tx>,
                     txs: seq<Tx>, k: nat, n: nat)
    requires PicksOk(s, picks) && m <= |picks| && k < |front| && front <= txs
    requires TakenAt(s, nCoinbaseTime, clock, picks[..m], front, k, n)
    ensures TakenAt(s, nCoinbaseTime, clock, picks, txs, k, n)
  {
    hide Run, SizeSum, Setting.Fee, Rank;
    assert picks[..m][..n] == picks[..n] && txs[..k] == front[..k] && txs[..k + 1] == front[..k + 1];
  }

  lemma TakenLast(s: Setting, nCoinbaseTime: nat, clock: nat -> nat, picks: seq<TxPriority>)
    requires PicksOk(s, picks) && picks != []
    requires var n := |picks| - 1; Takes(s, nCoinbaseTime, clock(n), Run(s, nCoinbaseTime, clock, picks[..n]), picks[n])
    ensures var n := |picks| - 1;
      var front, txs := Run(s, nCoinbaseTime, clock, picks[..n]).txs, Run(s, nCoinbaseTime, clock, picks).txs;
      txs == front + [picks[n].tx] && TakenAt(s, nCoinbaseTime, clock, picks, txs, |front|, n)
  {
    hide Fits, Connectable, Setting.Fee, Rank;
    var n := |picks| - 1;
    var sel, tx := Run(s, nCoinbaseTime, clock, picks[..n]), picks[n].tx;
    var txs := sel.txs + [tx];
    assert s.Candidate(tx) && picks[n] == Rank(s, tx);
    assert txs[..|sel.txs|] == sel.txs && txs[..|txs|] == txs && txs[..|txs| - 1] == sel.txs;
    FitsMeans(s, nCoinbaseTime, clock(n), sel, picks[n]);
  }

  lemma FitsMeans(s: Setting, nCoinbaseTime: nat, nNow: nat, sel: Selection, r: TxPriority)
    requires s.Candidate(r.tx) && r == Rank(s, r.tx) && Fits(s, nCoinbaseTime, nNow, sel, r)
    ensures var nSize := 1000 + SizeSum(s, sel.txs) + s.size(r.tx);
      && nSize < s.nBlockMaxSize && r.tx.nTime <= nNow && (s.fProofOfStake ==> r.tx.nTime <= nCoinbaseTime)
      && (sel.fSortedByFee && s.Fee(r.tx) * 1000 < s.nMinTxFee * s.size(r.tx) ==> nSize < s.nBlockMinSize)
  {
    hide Setting.Fee, Weight, SizeSum, SigOpSum;
    RateMeans(s, r.tx);
  }

  lemma RateMeans(s: Setting, tx: Tx)
    requires s.AllAvailable(tx.vin)
    ensures Rank(s, tx).dFeePerKb < s.nMinTxFee as real <==> s.Fee(tx) * 1000 < s.nMinTxFee * s.size(tx)
  {
    hide Setting.Fee, Weight;
    BelowMinimum(s.Fee(tx), s.nMinTxFee, s.size(tx));
  }

  lemma BelowMinimum(nFee: int, nMin: int, size: nat)
    requires size > 0
    ensures nFee as real / (size as real / 1000.0) < nMin as real <==> nFee * 1000 < nMin * size
  {
    var x := size as real / 1000.0;
    var r := nFee as real / x;
    assert nFee as real == r * x;
    assert (nFee * 1000) as real == r * size as real;
    assert (nMin * size) as real == nMin as real * size as real;
    Scaled(r, nMin as real, size as real);
  }

  // ---------- what is left out ----------

  lemma {:induction false} RunGrows(s: Setting, nCoinbaseTime: nat, clock: nat -> nat, picks: seq<TxPriority>, n: nat)
    requires PicksOk(s, picks) && n <= |picks|
    ensures Run(s, nCoinbaseTime, clock, picks[..n]).txs <= Run(s, nCoinbaseTime, clock, picks).txs
    ensures Ids(Run(s, nCoinbaseTime, clock, picks[..n]).txs) <= Ids(Run(s, nCoinbaseTime, clock, picks).txs)
  {
    hide Takes, Fits, TurnsToFees;
    if n == |picks| {
      assert picks[..n] == picks;
    } else {
      var m := |picks| - 1;
      RunGrows(s, nCoinbaseTime, clock, picks[..m], n);
      assert picks[..m][..n] == picks[..n];
      var sel := Run(s, nCoinbaseTime, clock, picks[..m]);
      AllInputsSnoc(sel.txs, picks[m].tx);
    }
  }

  /** The n-th pick is this transaction, its parents are in by then, and it is not taken on top of a prefix of the block. */
  ghost predicate RefusedAt(s: Setting, nCoinbaseTime: nat, clock: nat -> nat, picks: seq<TxPriority>, n: nat, id: TxId)
    requires PicksOk(s, picks) && n < |picks|
  {
    var sel := Run(s, nCoinbaseTime, clock, picks[..n]);
    && id in s.pool && picks[n].tx == s.pool[id]
    && sel.txs <= Run(s, nCoinbaseTime, clock, picks).txs && s.Parents(s.pool[id].vin) <= Ids(sel.txs)
    && !Takes(s, nCoinbaseTime, clock(n), sel, picks[n])
  }

  /** A ready transaction that is not in the block was popped, and refused on top of those taken before it. */
  lemma LeftOut(s: Setting, nCoinbaseTime: nat, clock: nat -> nat, picks: seq<TxPriority>, id: TxId)
    requires s.PoolOk() && FullRun(s, nCoinbaseTime, clock, picks)
    requires var txs := Run(s, nCoinbaseTime, clock, picks).txs; id in s.Ready(Ids(txs)) && id !in Ids(txs)
    ensures exists n :: 0 <= n < |picks| && RefusedAt(s, nCoinbaseTime, clock, picks, n, id)
  {
    hide Takes, Below, Setting.Ready, Setting.PoolOk, Setting.Parents, Rank, Run, Ids, RankOf;
    var n: nat :| n < |picks| && picks[n].tx.id == id;
    assert IsPick(s, nCoinbaseTime, clock, picks, n);
    ReadyParents(s, Ids(Run(s, nCoinbaseTime, clock, picks[..n]).txs), picks[n].tx);
    RunGrows(s, nCoinbaseTime, clock, picks, n);
    if Takes(s, nCoinbaseTime, clock(n), Run(s, nCoinbaseTime, clock, picks[..n]), picks[n]) {
      TakenIsIn(s, nCoinbaseTime, clock, picks, n);
    }
    assert RefusedAt(s, nCoinbaseTime, clock, picks, n, id);
  }

  lemma ReadyParents(s: Setting, S: set<TxId>, tx: Tx)
    requires s.Candidate(tx) && tx.id in s.Ready(S)
    ensures tx.id in s.pool && s.pool[tx.id] == tx && s.Parents(tx.vin) <= S
  {
  }

  lemma TakenIsIn(s: Setting, nCoinbaseTime: nat, clock: nat -> nat, picks: seq<TxPriority>, n: nat)
    requires PicksOk(s, picks) && n < |picks|
    requires Takes(s, nCoinbaseTime, clock(n), Run(s, nCoinbaseTime, clock, picks[..n]), picks[n])
    ensures picks[n].tx.id in Ids(Run(s, nCoinbaseTime, clock, picks).txs)
  {
    hide Takes, Fits, TurnsToFees, Setting.Candidate, Rank, Ids;
    RunGrows(s, nCoinbaseTime, clock, picks, n + 1);
    assert picks[..n + 1][..n] == picks[..n];
    AllInputsSnoc(Run(s, nCoinbaseTime, clock, picks[..n]).txs, picks[n].tx);
  }

  /** Every candidate is within the limits on top of every selection at every time. */
  ghost predicate LimitsNeverBind(s: Setting, nCoinbaseTime: nat, clock: nat -> nat) {
    forall txs, r: TxPriority, n, f :: Candidates(s, txs) && DistinctTxs(txs) && s.Candidate(r.tx) && r.tx.id !in Ids(txs) ==>
      LimitsFree(s, nCoinbaseTime, clock(n), Selection(txs, f), r)
  }

  ghost predicate LimitsFree(s: Setting, nCoinbaseTime: nat, nNow: nat, sel: Selection, r: TxPriority) {
    Fits(s, nCoinbaseTime, nNow, sel, r) && 100 + SigOpSum(s, sel.txs) + SigOps(s, r.tx) < s.nMaxSigOps
  }

  /** A transaction that does not connect although its parents are there does not connect later either. */
  lemma StillFails(s: Setting, txs: seq<Tx>, longer: seq<Tx>, tx: Tx)
    requires s.AllAvailable(tx.vin) && s.PoolOk() && txs <= longer && Ids(txs) <= Ids(longer)
    requires forall k :: 0 <= k < |AllInputs(txs)| ==> AllInputs(txs)[k] in AllInputs(longer)
    requires s.Parents(tx.vin) <= Ids(txs) && !Connectable(s, Ids(txs), AllInputs(txs), tx)
    requires forall id :: id in Ids(longer) ==> id in s.pool
    ensures !Connectable(s, Ids(longer), AllInputs(longer), tx)
  {
    hide InputsFine, Setting.Fee, DistinctOutPoints, Ids, AllInputs;
    if Connectable(s, Ids(longer), AllInputs(longer), tx) {
      forall k | 0 <= k < |tx.vin|
        ensures Free(s, Ids(txs), AllInputs(txs), tx.vin[k]) && s.signed(tx, k)
      {
        var p := tx.vin[k];
        assert Free(s, Ids(longer), AllInputs(longer), p) && s.signed(tx, k);
        if p.hash !in s.db {
          assert !s.OnDisk(p) && p.hash in s.Parents(tx.vin);
        }
      }
    }
  }

  lemma {:induction false} InputsOfPrefix(txs: seq<Tx>, longer: seq<Tx>)
    requires txs <= longer
    ensures forall k :: 0 <= k < |AllInputs(txs)| ==> AllInputs(txs)[k] in AllInputs(longer)
  {
    if txs == longer {
    } else {
      InputsOfPrefix(txs, longer[..|longer| - 1]);
    }
  }

  lemma {:induction false} RunIsCandidates(s: Setting, nCoinbaseTime: nat, clock: nat -> nat, picks: seq<TxPriority>)
    requires PicksOk(s, picks)
    requires forall j, k :: 0 <= j < k < |picks| ==> picks[j].tx.id != picks[k].tx.id
    ensures var txs := Run(s, nCoinbaseTime, clock, picks).txs;
      Candidates(s, txs) && DistinctTxs(txs) && Ids(txs) <= PickIds(picks)
  {
    hide Takes, Fits, TurnsToFees, Setting.Candidate, Rank;
    if picks != [] {
      var m := |picks| - 1;
      var front := picks[..m];
      RunIsCandidates(s, nCoinbaseTime, clock, front);
      var sel := Run(s, nCoinbaseTime, clock, front);
      AllInputsSnoc(sel.txs, picks[m].tx);
      assert picks[m].tx.id !in PickIds(front);
      DistinctTxsSnoc(sel.txs, picks[m].tx) by {
        assert picks[m].tx.id !in Ids(sel.txs);
      }
      assert PickIds(front) <= PickIds(picks) by {
        forall id | id in PickIds(front)
          ensures id in PickIds(picks)
        {
          var k: nat :| k < m && front[k].tx.id == id;
          assert picks[k].tx.id == id;
        }
      }
    }
  }

  lemma PicksDiffer(s: Setting, nCoinbaseTime: nat, clock: nat -> nat, picks: seq<TxPriority>)
    requires s.PoolOk() && FullRun(s, nCoinbaseTime, clock, picks)
    ensures forall j, k :: 0 <= j < k < |picks| ==> picks[j].tx.id != picks[k].tx.id
  {
    forall j, k | 0 <= j < k < |picks|
      ensures picks[j].tx.id != picks[k].tx.id
    {
      assert IsPick(s, nCoinbaseTime, clock, picks, k);
      assert picks[..k][j] == picks[j];
      assert picks[..k][j].tx.id in PickIds(picks[..k]);
    }
  }

  /**
   * When the limits cannot bind, the block is as full as it can be: a ready transaction that was left out does not
   * connect on top of it.
   */
  lemma NothingMoreConnects(s: Setting, nCoinbaseTime: nat, clock: nat -> nat, picks: seq<TxPriority>, id: TxId)
    requires s.PoolOk() && FullRun(s, nCoinbaseTime, clock, picks) && LimitsNeverBind(s, nCoinbaseTime, clock)
    requires var txs := Run(s, nCoinbaseTime, clock, picks).txs; id in s.Ready(Ids(txs)) && id !in Ids(txs)
    ensures id in s.pool && s.AllAvailable(s.pool[id].vin)
    ensures var txs := Run(s, nCoinbaseTime, clock, picks).txs; !Connectable(s, Ids(txs), AllInputs(txs), s.pool[id])
  {
    hide Connectable, Fits, Below, Rank, Setting.Parents, Run, AllInputs, LimitsFree, IsPick, Ids, LimitsNeverBind;
    var txs := Run(s, nCoinbaseTime, clock, picks).txs;
    ReadyIsAvailable(s, Ids(txs), id);
    LeftOut(s, nCoinbaseTime, clock, picks, id);
    PicksDiffer(s, nCoinbaseTime, clock, picks);
    RunIsCandidates(s, nCoinbaseTime, clock, picks);
    CandidatesPooled(s, txs);
    var n: nat :| n < |picks| && RefusedAt(s, nCoinbaseTime, clock, picks, n, id);
    var sel := Run(s, nCoinbaseTime, clock, picks[..n]);
    RunIsCandidates(s, nCoinbaseTime, clock, picks[..n]);
    NotPickedYet(picks, n);
    RunGrows(s, nCoinbaseTime, clock, picks, n);
    LimitsFreeAt(s, nCoinbaseTime, clock, sel, picks[n], n);
    FreeMeans(s, nCoinbaseTime, clock(n), sel, picks[n]);
    InputsOfPrefix(sel.txs, txs);
    StillFails(s, sel.txs, txs, s.pool[id]);
  }

  lemma ReadyIsAvailable(s: Setting, S: set<TxId>, id: TxId)
    requires s.PoolOk() && id in s.Ready(S)
    ensures id in s.pool && s.AllAvailable(s.pool[id].vin)
  {
    assert s.PooledOk(id);
  }

  lemma CandidatesPooled(s: Setting, txs: seq<Tx>)
    requires Candidates(s, txs)
    ensures forall id :: id in Ids(txs) ==> id in s.pool
  {
    forall id | id in Ids(txs)
      ensures id in s.pool
    {
      var k: nat :| k < |txs| && txs[k].id == id;
      assert s.Candidate(txs[k]);
    }
  }

  lemma NotPickedYet(picks: seq<TxPriority>, n: nat)
    requires n < |picks| && forall j, k :: 0 <= j < k < |picks| ==> picks[j].tx.id != picks[k].tx.id
    ensures picks[n].tx.id !in PickIds(picks[..n])
  {
  }

  lemma LimitsFreeAt(s: Setting, nCoinbaseTime: nat, clock: nat -> nat, sel: Selection, r: TxPriority, n: nat)
    requires LimitsNeverBind(s, nCoinbaseTime, clock) && Candidates(s, sel.txs) && DistinctTxs(sel.txs)
    requires s.Candidate(r.tx) && r.tx.id !in Ids(sel.txs)
    ensures LimitsFree(s, nCoinbaseTime, clock(n), sel, r)
  {
    hide LimitsFree;
    assert LimitsFree(s, nCoinbaseTime, clock(n), Selection(sel.txs, sel.fSortedByFee), r);
  }

  lemma FreeMeans(s: Setting, nCoinbaseTime: nat, nNow: nat, sel: Selection, r: TxPriority)
    requires s.AllAvailable(r.tx.vin) && LimitsFree(s, nCoinbaseTime, nNow, sel, r) && !Takes(s, nCoinbaseTime, nNow, sel, r)
    ensures !Connectable(s, Ids(sel.txs), AllInputs(sel.txs), r.tx)
  {
  }

  // ---------- the whole loop ----------

  ghost predicate NoRepeats(ids: seq<TxId>) {
    forall j, k :: 0 <= j < k < |ids| ==> ids[j] != ids[k]
  }

  function IdSet(ids: seq<TxId>): set<TxId> {
    set k: nat | k < |ids| :: ids[k]
  }

  lemma OneMoreId(ids: seq<TxId>, id: TxId)
    requires NoRepeats(ids) && id !in IdSet(ids)
    ensures NoRepeats(ids + [id]) && IdSet(ids + [id]) == IdSet(ids) + {id}
  {
    var longer := ids + [id];
    assert longer[|ids|] == id;
    forall k: nat | k < |ids|
      ensures longer[k] == ids[k] && ids[k] in IdSet(ids)
    {
    }
  }

  lemma ReadyMonotone(s: Setting, S: set<TxId>, T: set<TxId>)
    requires S <= T
    ensures s.Ready(S) <= s.Ready(T) <= s.pool.Keys
    ensures s.Ready(S) + (s.Ready(T) - s.Ready(S)) == s.Ready(T)
  {
  }

  /** No selected transaction shares an input with another or repeats one. */
  lemma NoDoubleSpend(txs: seq<Tx>, i: nat, a: nat, j: nat, b: nat)
    requires DistinctOutPoints(AllInputs(txs))
    requires i < |txs| && a < |txs[i].vin| && j < |txs| && b < |txs[j].vin| && (i, a) != (j, b)
    ensures txs[i].vin[a] != txs[j].vin[b]
  {
    var p, q := InputAt(txs, i, a), InputAt(txs, j, b);
    InputAtDistinct(txs, i, a, j, b);
  }

  /** The place of an input in the joined list. */
  ghost function InputAt(txs: seq<Tx>, i: nat, a: nat): (at: nat)
    requires i < |txs| && a < |txs[i].vin|
    ensures at < |AllInputs(txs)| && AllInputs(txs)[at] == txs[i].vin[a]
    ensures if i < |txs| - 1 then at < |AllInputs(txs[..|txs| - 1])| else at == |AllInputs(txs[..|txs| - 1])| + a
  {
    if i == |txs| - 1 then |AllInputs(txs[..|txs| - 1])| + a else InputAt(txs[..|txs| - 1], i, a)
  }

  lemma {:induction false} InputAtDistinct(txs: seq<Tx>, i: nat, a: nat, j: nat, b: nat)
    requires i < |txs| && a < |txs[i].vin| && j < |txs| && b < |txs[j].vin| && (i, a) != (j, b)
    ensures InputAt(txs, i, a) != InputAt(txs, j, b)
  {
    if i < |txs| - 1 && j < |txs| - 1 {
      InputAtDistinct(txs[..|txs| - 1], i, a, j, b);
    }
  }

  /** Between two rounds: the queue holds the ready candidates that have not been considered yet. */
  ghost predicate Between(s: Setting, d: Draft, vOrphan: seq<Orphan>, mapDependers: Dependers, queue: seq<TxPriority>,
                          considered: seq<TxId>)
  {
    && Sound(s, d) && Tallied(s, d)
    && Waiting(s, Ids(d.txs), vOrphan) && Covers(s, s.pool.Keys, vOrphan) && Lists(s, vOrphan, mapDependers)
    && QueueOk(s, queue) && NoRepeats(considered)
    && QueueIds(queue) == s.Ready(Ids(d.txs)) - IdSet(considered)
    && Ids(d.txs) <= IdSet(considered) <= s.Ready(Ids(d.txs)) <= s.pool.Keys
  }

  lemma ReadyInPool(s: Setting, S: set<TxId>)
    ensures forall id :: id in s.Ready(S) ==> id in s.pool && s.Eligible(s.pool[id])
  {
  }

  /**
   * One round of the loop: a transaction below no other leaves the queue, is taken or not as AfterPick says, and those
   * it frees enter.
   */
  method NextTransaction(s: Setting, nCoinbaseTime: nat, nNow: nat, fSortedByFee0: bool, d0: Draft, vOrphan0: seq<Orphan>,
                         mapDependers: Dependers, queue0: seq<TxPriority>, ghost considered: seq<TxId>)
    returns (at: nat, fSortedByFee: bool, d: Draft, vOrphan: seq<Orphan>, queue: seq<TxPriority>)
    requires s.PoolOk() && queue0 != [] && Between(s, d0, vOrphan0, mapDependers, queue0, considered)
    ensures at < |queue0| && forall k :: 0 <= k < |queue0| ==> !Below(fSortedByFee0, queue0[at], queue0[k])
    ensures queue0[at].tx.id in s.pool && queue0[at].tx.id !in IdSet(considered)
    ensures s.Candidate(queue0[at].tx) && queue0[at] == Rank(s, queue0[at].tx)
    ensures Selection(d.txs, fSortedByFee) ==
            AfterPick(s, nCoinbaseTime, nNow, Selection(d0.txs, fSortedByFee0), queue0[at])
    ensures BestReady(s, Selection(d0.txs, fSortedByFee0), IdSet(considered), queue0[at])
    ensures Between(s, d, vOrphan, mapDependers, queue, considered + [queue0[at].tx.id])
  {
    hide Sound, Tallied, QueueOk, QueueIds, Lists, Waiting, Covers, NoRepeats, IdSet, Ids, Connectable, WithinLimits,
      Rank, Setting.Ready, Setting.PoolOk, Below, RankOf, Fits, TurnsToFees, PastPriority;
    var rest;
    at, rest := PopHeap(queue0, fSortedByFee0);
    var r := queue0[at];
    ReadyInPool(s, Ids(d0.txs));
    PoppedIsPick(s, queue0, at, fSortedByFee0, s.Ready(Ids(d0.txs)) - IdSet(considered));
    ConsideredAs(s, nCoinbaseTime, nNow, d0, fSortedByFee0, r);
    Dequeue(s, queue0, at);
    OneMoreId(considered, r.tx.id);
    ghost var S, C := Ids(d0.txs), IdSet(considered);
    vOrphan, queue := vOrphan0, rest;
    var taken;
    taken, fSortedByFee, d := Consider(s, nCoinbaseTime, nNow, fSortedByFee0, d0, r);
    QueueStep(s.Ready(S), {}, C, r.tx.id);
    if taken {
      AllInputsSnoc(d0.txs, r.tx);
      vOrphan, queue := Release(s, S, r.tx.id, vOrphan, mapDependers, queue);
      ReadyMonotone(s, S, S + {r.tx.id});
      QueueStep(s.Ready(S), s.Ready(S + {r.tx.id}) - s.Ready(S), C, r.tx.id);
    }
  }

  /**
   * The selection: what taking the transactions in the order `picks` gives, each candidate whose pool parents were all
   * selected being popped exactly once, and no other. clock(n) is the time when the n-th is popped.
   */
  method SelectTransactions(s: Setting, nCoinbaseTime: nat, clock: nat -> nat)
    returns (d: Draft, ghost considered: seq<TxId>, ghost picks: seq<TxPriority>)
    requires s.PoolOk()
    ensures Sound(s, d) && Tallied(s, d)
    ensures NoRepeats(considered) && IdSet(considered) == s.Ready(Ids(d.txs))
    ensures Ids(d.txs) <= IdSet(considered)
    ensures FullRun(s, nCoinbaseTime, clock, picks) && d.txs == Run(s, nCoinbaseTime, clock, picks).txs
  {
    hide Sound, Tallied, QueueOk, QueueIds, Lists, Waiting, Covers, NoRepeats, IdSet, Ids, Below, History, FullRun,
      Run, AfterPick, Rank, BestReady, Setting.Ready, Setting.PoolOk, Setting.Candidate, Between;
    var vOrphan, mapDependers, vecPriority := Collect(s);
    d := Draft([], map[], 1000, 100, 0);
    considered, picks := [], [];
    BetweenFirst(s, d, vOrphan, mapDependers, vecPriority);
    var fSortedByFee := s.nBlockPrioritySize == 0;
    var nRound := 0;
    HistoryFirst(s, nCoinbaseTime, clock);
    while vecPriority != []
      invariant Between(s, d, vOrphan, mapDependers, vecPriority, considered)
      invariant History(s, nCoinbaseTime, clock, picks, considered, Selection(d.txs, fSortedByFee))
      invariant nRound == |picks|
      decreases |s.pool.Keys - IdSet(considered)|
    {
      ghost var queue, before, sel := vecPriority, considered, Selection(d.txs, fSortedByFee);
      BetweenMeans(s, d, vOrphan, mapDependers, vecPriority, considered);
      var at;
      at, fSortedByFee, d, vOrphan, vecPriority :=
        NextTransaction(s, nCoinbaseTime, clock(nRound), fSortedByFee, d, vOrphan, mapDependers, vecPriority, considered);
      HistoryStep(s, nCoinbaseTime, clock, picks, before, sel, queue[at]);
      OneMoreId(before, queue[at].tx.id);
      Shrinks(s.pool.Keys, IdSet(before), queue[at].tx.id);
      nRound := nRound + 1;
      considered := considered + [queue[at].tx.id];
      picks := picks + [queue[at]];
    }
    BetweenMeans(s, d, vOrphan, mapDependers, vecPriority, considered);
    HistoryEnds(s, nCoinbaseTime, clock, picks, considered, Selection(d.txs, fSortedByFee));
  }

  lemma HistoryEnds(s: Setting, nCoinbaseTime: nat, clock: nat -> nat, picks: seq<TxPriority>, considered: seq<TxId>,
                    sel: Selection)
    requires s.PoolOk() && History(s, nCoinbaseTime, clock, picks, considered, sel)
    requires QueueIds([]) == s.Ready(Ids(sel.txs)) - IdSet(considered) && IdSet(considered) <= s.Ready(Ids(sel.txs))
    ensures IdSet(considered) == s.Ready(Ids(sel.txs))
    ensures FullRun(s, nCoinbaseTime, clock, picks) && Run(s, nCoinbaseTime, clock, picks) == sel
  {
    hide Run, IsPick, IdSet, Setting.Ready;
    var ready, done := s.Ready(Ids(sel.txs)), IdSet(considered);
    assert ready == (ready - done) + done;
    assert QueueIds([]) == {};
  }

  lemma BetweenFirst(s: Setting, d: Draft, vOrphan: seq<Orphan>, mapDependers: Dependers, queue: seq<TxPriority>)
    requires Waiting(s, {}, vOrphan) && Covers(s, s.pool.Keys, vOrphan) && Lists(s, vOrphan, mapDependers)
    requires QueueOk(s, queue) && QueueIds(queue) == s.Ready({}) && d == Draft([], map[], 1000, 100, 0)
    ensures Between(s, d, vOrphan, mapDependers, queue, []) && Ids(d.txs) == IdSet([]) == {}
  {
    EmptyDraft(s, d);
  }

  lemma BetweenMeans(s: Setting, d: Draft, vOrphan: seq<Orphan>, mapDependers: Dependers, queue: seq<TxPriority>,
                     considered: seq<TxId>)
    requires Between(s, d, vOrphan, mapDependers, queue, considered)
    ensures Sound(s, d) && Tallied(s, d) && NoRepeats(considered)
    ensures QueueIds(queue) == s.Ready(Ids(d.txs)) - IdSet(considered)
    ensures Ids(d.txs) <= IdSet(considered) <= s.Ready(Ids(d.txs)) <= s.pool.Keys
  {
  }

  /** What leaves and what enters the queue in one round. */
  lemma QueueStep(ready: set<TxId>, newlyReady: set<TxId>, considered: set<TxId>, id: TxId)
    requires considered <= ready && newlyReady !! ready && id in ready
    ensures ready - considered - {id} + newlyReady == ready + newlyReady - (considered + {id})
    ensures considered + {id} <= ready + newlyReady
  {
  }

  lemma Shrinks(all: set<TxId>, gone: set<TxId>, id: TxId)
    requires id in all && id !in gone
    ensures |all - (gone + {id})| < |all - gone|
  {
    assert all - (gone + {id}) == all - gone - {id};
  }

  lemma EmptyDraft(s: Setting, d: Draft)
    requires d == Draft([], map[], 1000, 100, 0)
    ensures Sound(s, d) && Tallied(s, d) && Ids(d.txs) == {} && NoRepeats([]) && IdSet([]) == {}
    ensures s.Ready({}) <= s.pool.Keys
  {
  }

  /** The block's transactions, coinbase first, and the fees its coinbase may claim. */
  method CreateNewBlock(s: Setting, coinbase: Tx, clock: nat -> nat)
    returns (vtx: seq<Tx>, nFees: int, ghost picks: seq<TxPriority>)
    requires s.PoolOk()
    ensures |vtx| > 0 && vtx[0] == coinbase
    ensures Candidates(s, vtx[1..]) && DistinctTxs(vtx[1..])
    ensures ParentsFirst(s, vtx[1..]) && AllChecked(s, vtx[1..])
    ensures DistinctOutPoints(AllInputs(vtx[1..]))
    ensures nFees == FeeSum(s, vtx[1..])
    ensures vtx[1..] != [] ==> 1000 + SizeSum(s, vtx[1..]) < s.nBlockMaxSize && 100 + SigOpSum(s, vtx[1..]) < s.nMaxSigOps
    // and it is the selection that popping the transactions in their order gives, until none is left
    ensures FullRun(s, coinbase.nTime, clock, picks) && vtx[1..] == Run(s, coinbase.nTime, clock, picks).txs
  {
    var d;
    ghost var considered;
    d, considered, picks := SelectTransactions(s, coinbase.nTime, clock);
    vtx, nFees := [coinbase] + d.txs, d.nFees;
    assert vtx[1..] == d.txs;
  }

  // ---------- a pool of one ----------

  /** In figures: an input on the chain, unspent and signed, old enough, not younger than the spender, and in range. */
  ghost predicate GoodInput(s: Setting, tx: Tx, k: nat)
    requires k < |tx.vin|
  {
    var p := tx.vin[k];
    && p.hash in s.db && TxAt(s.db[p.hash].pos).Some? && p.n < |s.db[p.hash].vSpent|
    && var prev := TxAt(s.db[p.hash].pos).value;
       && p.n < |prev.vout| && s.db[p.hash].vSpent[p.n].None? && s.signed(tx, k)
       && 0 <= prev.vout[p.n].nValue <= MAX_MONEY && prev.nTime <= tx.nTime
       && (prev.IsCoinBase() || prev.IsCoinStake() ==> !ConfirmedWithin(s.db[p.hash].pos.bi, s.pindexPrev, 30))
  }

  lemma GoodInputsAvailable(s: Setting, tx: Tx)
    requires forall k :: 0 <= k < |tx.vin| ==> GoodInput(s, tx, k)
    ensures s.AllAvailable(tx.vin)
  {
    forall k | 0 <= k < |tx.vin|
      ensures s.Available(tx.vin[k])
    {
      assert GoodInput(s, tx, k);
    }
  }

  /** One transaction that pays its way and fits: its block is the coinbase and it, and its fee is the block's. */
  ghost predicate PaysItsWay(s: Setting, tx: Tx, nCoinbaseTime: nat, nNow: nat)
    ensures PaysItsWay(s, tx, nCoinbaseTime, nNow) ==> s.AllAvailable(tx.vin)
  {
    && !tx.IsCoinBase() && !tx.IsCoinStake() && s.isFinal(tx) && tx.id !in s.db && |tx.vin| >= 1
    && (forall k :: 0 <= k < |tx.vin| ==> GoodInput(s, tx, k)) && DistinctOutPoints(tx.vin)
    && (GoodInputsAvailable(s, tx); forall k :: 0 <= k <= |tx.vin| ==> s.TotalIn(tx.vin[..k]) <= MAX_MONEY)
    && 0 <= s.TotalIn(tx.vin) - OutputSum(tx.vout) <= MAX_MONEY
    && (s.TotalIn(tx.vin) - OutputSum(tx.vout)) * 1000 >= s.nMinTxFee * s.size(tx)
    && 1000 + s.size(tx) < s.nBlockMaxSize
    && 100 + s.legacySigOps(tx) + s.p2shSigOps(tx) < s.nMaxSigOps
    && tx.nTime <= nNow && (s.fProofOfStake ==> tx.nTime <= nCoinbaseTime)
  }

  lemma {:induction false} TotalNotNegative(s: Setting, tx: Tx, k: nat)
    requires k <= |tx.vin| && s.AllAvailable(tx.vin) && forall i :: 0 <= i < |tx.vin| ==> GoodInput(s, tx, i)
    ensures s.TotalIn(tx.vin[..k]) >= 0
  {
    if k > 0 {
      TotalNotNegative(s, tx, k - 1);
      assert tx.vin[..k][..k - 1] == tx.vin[..k - 1];
      assert GoodInput(s, tx, k - 1);
    }
  }

  lemma GoodInputsConnect(s: Setting, tx: Tx, nCoinbaseTime: nat, nNow: nat)
    requires PaysItsWay(s, tx, nCoinbaseTime, nNow)
    ensures Connectable(s, {}, [], tx) && s.Parents(tx.vin) == {}
  {
    hide Setting.OnDisk, FineAt, GoodInput, Free, Setting.TotalIn;
    forall k | 0 <= k < |tx.vin|
      ensures FineAt(s, tx, k) && Free(s, {}, [], tx.vin[k]) && s.signed(tx, k) && s.OnDisk(tx.vin[k])
    {
      TotalNotNegative(s, tx, k + 1);
      GoodInputIsFine(s, tx, k);
    }
  }

  lemma GoodInputIsFine(s: Setting, tx: Tx, k: nat)
    requires k < |tx.vin| && GoodInput(s, tx, k) && s.AllAvailable(tx.vin) && MoneyRange(s.TotalIn(tx.vin[..k + 1]))
    ensures FineAt(s, tx, k) && Free(s, {}, [], tx.vin[k]) && s.signed(tx, k) && s.OnDisk(tx.vin[k])
  {
    hide Setting.TotalIn;
  }

  /** Whatever the priority and whichever order the queue is in. */
  lemma TakenAtOnce(s: Setting, tx: Tx, nCoinbaseTime: nat, nNow: nat, f: bool)
    requires PaysItsWay(s, tx, nCoinbaseTime, nNow)
    ensures Takes(s, nCoinbaseTime, nNow, Selection([], f), Rank(s, tx))
  {
    hide Connectable;
    GoodInputsConnect(s, tx, nCoinbaseTime, nNow);
    BelowMinimum(s.Fee(tx), s.nMinTxFee, s.size(tx));
    assert Ids([]) == {} && AllInputs([]) == [];
  }

  /** A pool with one such transaction: it is in the block, and its fee is what the block reports. */
  method OneTransaction(s: Setting, coinbase: Tx, tx: Tx, clock: nat -> nat) returns (vtx: seq<Tx>, nFees: int)
    requires s.pool == map[tx.id := tx] && PaysItsWay(s, tx, coinbase.nTime, clock(0))
    ensures vtx == [coinbase, tx] && nFees == s.TotalIn(tx.vin) - OutputSum(tx.vout)
  {
    hide FullRun, PaysItsWay, Run, ParentsFirst, AllChecked, AllInputs, SizeSum, SigOpSum, DistinctOutPoints, Candidates,
      DistinctTxs, FeeSum;
    PoolOfOne(s, tx, coinbase.nTime, clock(0));
    ghost var picks;
    vtx, nFees, picks := CreateNewBlock(s, coinbase, clock);
    OnlyOnePick(s, tx, coinbase.nTime, clock, picks);
    OneFee(s, tx);
    assert vtx == [vtx[0]] + vtx[1..];
  }

  lemma PoolOfOne(s: Setting, tx: Tx, nCoinbaseTime: nat, nNow: nat)
    requires s.pool == map[tx.id := tx] && PaysItsWay(s, tx, nCoinbaseTime, nNow)
    ensures s.PoolOk() && s.Candidate(tx)
  {
    assert s.PooledOk(tx.id);
  }

  lemma OneFee(s: Setting, tx: Tx)
    requires s.Candidate(tx)
    ensures Candidates(s, [tx]) && FeeSum(s, [tx]) == s.Fee(tx)
  {
    assert [tx][..0] == [];
  }

  lemma OnlyOnePick(s: Setting, tx: Tx, nCoinbaseTime: nat, clock: nat -> nat, picks: seq<TxPriority>)
    requires s.pool == map[tx.id := tx] && PaysItsWay(s, tx, nCoinbaseTime, clock(0))
    requires s.PoolOk() && FullRun(s, nCoinbaseTime, clock, picks)
    ensures Run(s, nCoinbaseTime, clock, picks).txs == [tx]
  {
    hide Takes, Below, PaysItsWay, Fits, TurnsToFees, Rank;
    PicksDiffer(s, nCoinbaseTime, clock, picks);
    ReadyAlone(s, tx, nCoinbaseTime, clock(0));
    var txs := Run(s, nCoinbaseTime, clock, picks).txs;
    assert tx.id in s.Ready(Ids(txs));
    var n: nat :| n < |picks| && picks[n].tx.id == tx.id;
    TheOnlyOne(s, tx, picks, 0);
    if |picks| > 1 {
      TheOnlyOne(s, tx, picks, 1);
    }
    assert picks[..0] == [] && picks[0] == Rank(s, tx);
    TakenAtOnce(s, tx, nCoinbaseTime, clock(0), s.nBlockPrioritySize == 0);
    assert Run(s, nCoinbaseTime, clock, []) == Selection([], s.nBlockPrioritySize == 0);
  }

  lemma TheOnlyOne(s: Setting, tx: Tx, picks: seq<TxPriority>, k: nat)
    requires s.pool == map[tx.id := tx] && PicksOk(s, picks) && k < |picks|
    ensures picks[k].tx == tx && picks[k] == Rank(s, tx)
  {
    assert s.Candidate(picks[k].tx);
  }

  lemma ReadyAlone(s: Setting, tx: Tx, nCoinbaseTime: nat, nNow: nat)
    requires tx.id in s.pool && s.pool[tx.id] == tx && PaysItsWay(s, tx, nCoinbaseTime, nNow)
    ensures forall S: set<TxId> :: tx.id in s.Ready(S)
  {
    hide Connectable;
    GoodInputsConnect(s, tx, nCoinbaseTime, nNow);
  }
}
