/**
 * Filling a new block from the memory pool (src/miner.cpp:193-361): transactions wait for the parents that are
 * still in the pool, are taken from a priority queue, and are tried against a test index laid over the database.
 */
module BlockAssembly {
  import opened Common
  import opened Transactions
  import opened TxIndexing

  type Size = n: nat | n > 0 witness 1

  /**
   * What CreateNewBlock reads: the database index, the pool, the previous block, the limits, and the measurements
   * and checks that depend on serialization, scripts and signatures.
   */
  datatype Setting = Setting(
    db: Index,
    pool: map<TxId, Tx>,
    pindexPrev: BlockIndex,
    isFinal: Tx -> bool,
    size: Tx -> Size,
    legacySigOps: Tx -> nat,
    p2shSigOps: Tx -> nat,
    signed: (Tx, nat) -> bool,
    depth: TxPos -> int,
    fProofOfStake: bool,
    nBlockMaxSize: nat,
    nBlockPrioritySize: nat,
    nBlockMinSize: nat,
    nMinTxFee: int,
    nMaxSigOps: nat)
  {
    predicate Eligible(tx: Tx) {
      !tx.IsCoinBase() && !tx.IsCoinStake() && isFinal(tx)
    }

    /** The output can be read from the chain. */
    predicate OnDisk(p: OutPoint) {
      p.hash in db && TxAt(db[p.hash].pos).Some? && p.n < |TxAt(db[p.hash].pos).value.vout|
    }

    predicate Available(p: OutPoint) {
      OnDisk(p) || (p.hash in pool && p.n < |pool[p.hash].vout|)
    }

    function Prev(p: OutPoint): Tx
      requires Available(p)
    {
      if OnDisk(p) then TxAt(db[p.hash].pos).value else pool[p.hash]
    }

    function ValueOf(p: OutPoint): int
      requires Available(p)
    {
      Prev(p).vout[p.n].nValue
    }

    predicate AllAvailable(vin: seq<OutPoint>) {
      forall k :: 0 <= k < |vin| ==> Available(vin[k])
    }

    function TotalIn(vin: seq<OutPoint>): int
      requires AllAvailable(vin)
    {
      if vin == [] then 0 else TotalIn(vin[..|vin| - 1]) + ValueOf(vin[|vin| - 1])
    }

    function Fee(tx: Tx): int
      requires AllAvailable(tx.vin)
    {
      TotalIn(tx.vin) - OutputSum(tx.vout)
    }

    /** The transactions of the pool that have to be in the block first. */
    function Parents(vin: seq<OutPoint>): set<TxId> {
      set p | p in vin && !OnDisk(p) :: p.hash
    }

    /**
     * What the memory pool promises: keys are hashes, nothing in it is already in the chain, and no candidate is
     * missing an input.
     */
    ghost predicate PoolOk() {
      forall id :: id in pool ==> PooledOk(id)
    }

    ghost predicate PooledOk(id: TxId)
      requires id in pool
    {
      pool[id].id == id && id !in db && (Eligible(pool[id]) ==> AllAvailable(pool[id].vin))
    }

    ghost predicate Candidate(tx: Tx) {
      tx.id in pool && pool[tx.id] == tx && tx.id !in db && Eligible(tx) && AllAvailable(tx.vin)
    }

    /** The candidates whose waiting is over once the transactions of S are in the block. */
    ghost function Ready(S: set<TxId>): set<TxId> {
      set id | id in pool && Eligible(pool[id]) && Parents(pool[id].vin) <= S
    }
  }

  // ---------- the first pass over the pool ----------

  /** `weight` is the sum of value times confirmations over the inputs found in the chain. */
  function Weight(s: Setting, vin: seq<OutPoint>): int
    requires s.AllAvailable(vin)
  {
    if vin == [] then 0
    else
      var p := vin[|vin| - 1];
      Weight(s, vin[..|vin| - 1]) + (if s.OnDisk(p) then s.ValueOf(p) * s.depth(s.db[p.hash].pos) else 0)
  }

  datatype TxPriority = TxPriority(dPriority: real, dFeePerKb: real, tx: Tx)

  /** Priority and fee rate as the queue should hold them: coin age per byte, and fee per thousand bytes. */
  ghost function Rank(s: Setting, tx: Tx): TxPriority
    requires s.AllAvailable(tx.vin)
  {
    var size := s.size(tx) as real;
    TxPriority(Weight(s, tx.vin) as real / size, s.Fee(tx) as real / (size / 1000.0), tx)
  }

  datatype Orphan = Orphan(rank: TxPriority, setDependsOn: set<TxId>)

  type Dependers = map<TxId, seq<nat>>

  /** Each listed position is that of an orphan, and each orphan is listed under exactly the hashes it needs. */
  ghost predicate Lists(s: Setting, vOrphan: seq<Orphan>, mapDependers: Dependers) {
    forall h, k: nat ::
      Listed(mapDependers, h, k) <==> k < |vOrphan| && h in s.Parents(vOrphan[k].rank.tx.vin)
  }

  /** vOrphan holds each candidate with waiting parents once, waiting for those not in S. */
  ghost predicate Waiting(s: Setting, S: set<TxId>, vOrphan: seq<Orphan>) {
    && (forall k :: 0 <= k < |vOrphan| ==> IsWaiting(s, S, vOrphan[k]))
    && (forall j, k :: 0 <= j < k < |vOrphan| ==> vOrphan[j].rank.tx != vOrphan[k].rank.tx)
  }

  ghost predicate IsWaiting(s: Setting, S: set<TxId>, o: Orphan) {
    && s.Candidate(o.rank.tx) && o.rank == Rank(s, o.rank.tx)
    && s.Parents(o.rank.tx.vin) != {}
    && o.setDependsOn == s.Parents(o.rank.tx.vin) - S
  }

  ghost predicate Covers(s: Setting, ids: set<TxId>, vOrphan: seq<Orphan>) {
    forall id :: id in ids && id in s.pool && s.Eligible(s.pool[id]) && s.Parents(s.pool[id].vin) != {} ==>
      HasOrphan(vOrphan, s.pool[id])
  }

  ghost predicate HasOrphan(vOrphan: seq<Orphan>, tx: Tx) {
    exists k :: 0 <= k < |vOrphan| && vOrphan[k].rank.tx == tx
  }

  function QueueIds(queue: seq<TxPriority>): set<TxId> {
    set k: nat | k < |queue| :: queue[k].tx.id
  }

  /** The queue holds candidates, each at most once and with its own rank. */
  ghost predicate QueueOk(s: Setting, queue: seq<TxPriority>) {
    && (forall k :: 0 <= k < |queue| ==> s.Candidate(queue[k].tx) && queue[k] == Rank(s, queue[k].tx))
    && (forall j, k :: 0 <= j < k < |queue| ==> queue[j].tx.id != queue[k].tx.id)
  }

  lemma TotalsStep(s: Setting, vin: seq<OutPoint>, i: nat)
    requires i < |vin| && s.AllAvailable(vin)
    ensures s.AllAvailable(vin[..i]) && s.AllAvailable(vin[..i + 1])
    ensures s.TotalIn(vin[..i + 1]) == s.TotalIn(vin[..i]) + s.ValueOf(vin[i])
    ensures Weight(s, vin[..i + 1]) ==
            Weight(s, vin[..i]) + (if s.OnDisk(vin[i]) then s.ValueOf(vin[i]) * s.depth(s.db[vin[i].hash].pos) else 0)
  {
    var longer := vin[..i + 1];
    assert longer[..|longer| - 1] == vin[..i];
  }

  lemma ParentsStep(s: Setting, vin: seq<OutPoint>, i: nat)
    requires i < |vin|
    ensures s.Parents(vin[..i + 1]) == s.Parents(vin[..i]) + if s.OnDisk(vin[i]) then {} else {vin[i].hash}
  {
    assert vin[..i + 1] == vin[..i] + [vin[i]];
  }

  predicate Listed(m: Dependers, h: TxId, k: nat) {
    h in m && k in m[h]
  }

  /** m lists what m0 lists, and position `at` under each of the hashes. */
  ghost predicate ListedAlso(m: Dependers, m0: Dependers, at: nat, hashes: set<TxId>) {
    forall h, k: nat :: Listed(m, h, k) <==> Listed(m0, h, k) || (k == at && h in hashes)
  }

  function Enlist(m: Dependers, h: TxId, at: nat): Dependers {
    m[h := (if h in m then m[h] else []) + [at]]
  }

  lemma EnlistStep(m: Dependers, m0: Dependers, at: nat, hashes: set<TxId>, h: TxId)
    requires ListedAlso(m, m0, at, hashes)
    ensures ListedAlso(Enlist(m, h, at), m0, at, hashes + {h})
  {
    var m' := Enlist(m, h, at);
    forall h', k: nat
      ensures Listed(m', h', k) <==> Listed(m0, h', k) || (k == at && h' in hashes + {h})
    {
      assert Listed(m', h', k) <==> Listed(m, h', k) || (k == at && h' == h);
    }
  }

  /** One candidate: its waiting set and its listings, and its rank for the queue. */
  method Measure(s: Setting, tx: Tx, at: nat, mapDependers0: Dependers)
    returns (parents: set<TxId>, rank: TxPriority, mapDependers: Dependers)
    requires s.AllAvailable(tx.vin)
    ensures parents == s.Parents(tx.vin)
    ensures rank == Rank(s, tx)
    ensures ListedAlso(mapDependers, mapDependers0, at, parents)
  {
    hide Listed, ListedAlso, Setting.Parents, Setting.TotalIn, Weight;
    parents, mapDependers := {}, mapDependers0;
    var nTotalIn, weight := 0, 0;
    NothingYet(s, tx.vin, at, mapDependers0);
    for i := 0 to |tx.vin|
      invariant s.AllAvailable(tx.vin[..i])
      invariant parents == s.Parents(tx.vin[..i])
      invariant nTotalIn == s.TotalIn(tx.vin[..i]) && weight == Weight(s, tx.vin[..i])
      invariant ListedAlso(mapDependers, mapDependers0, at, parents)
    {
      var p := tx.vin[i];
      assert s.Available(p);
      TotalsStep(s, tx.vin, i);
      ParentsStep(s, tx.vin, i);
      if s.OnDisk(p) {
        var nValueIn := TxAt(s.db[p.hash].pos).value.vout[p.n].nValue;
        nTotalIn := nTotalIn + nValueIn;
        weight := weight + nValueIn * s.depth(s.db[p.hash].pos);
      } else {
        EnlistStep(mapDependers, mapDependers0, at, parents, p.hash);
        mapDependers := Enlist(mapDependers, p.hash, at);
        parents := parents + {p.hash};
        nTotalIn := nTotalIn + s.pool[p.hash].vout[p.n].nValue;
      }
    }
    assert tx.vin[..|tx.vin|] == tx.vin;
    var size := s.size(tx) as real;
    rank := TxPriority(weight as real / size, (nTotalIn - OutputSum(tx.vout)) as real / (size / 1000.0), tx);
  }

  lemma NothingYet(s: Setting, vin: seq<OutPoint>, at: nat, m: Dependers)
    ensures s.AllAvailable(vin[..0]) && s.Parents(vin[..0]) == {}
    ensures s.TotalIn(vin[..0]) == 0 && Weight(s, vin[..0]) == 0
    ensures ListedAlso(m, m, at, {})
  {
  }

  // ---------- collecting the candidates ----------

  lemma AddOrphan(s: Setting, vOrphan: seq<Orphan>, m0: Dependers, o: Orphan, m: Dependers)
    requires Lists(s, vOrphan, m0)
    requires ListedAlso(m, m0, |vOrphan|, s.Parents(o.rank.tx.vin))
    ensures Lists(s, vOrphan + [o], m)
  {
    var longer := vOrphan + [o];
    forall h, k: nat
      ensures Listed(m, h, k) <==> k < |longer| && h in s.Parents(longer[k].rank.tx.vin)
    {
      assert Listed(m, h, k) <==> Listed(m0, h, k) || (k == |vOrphan| && h in s.Parents(o.rank.tx.vin));
    }
  }

  lemma AddNothing(s: Setting, vOrphan: seq<Orphan>, m0: Dependers, m: Dependers)
    requires Lists(s, vOrphan, m0) && ListedAlso(m, m0, |vOrphan|, {})
    ensures Lists(s, vOrphan, m)
  {
    forall h, k: nat
      ensures Listed(m, h, k) <==> k < |vOrphan| && h in s.Parents(vOrphan[k].rank.tx.vin)
    {
      assert Listed(m, h, k) <==> Listed(m0, h, k);
    }
  }

  ghost predicate AmongOrphans(vOrphan: seq<Orphan>, ids: set<TxId>) {
    forall k :: 0 <= k < |vOrphan| ==> vOrphan[k].rank.tx.id in ids
  }

  lemma OneMoreOrphan(s: Setting, S: set<TxId>, vOrphan: seq<Orphan>, o: Orphan, ids: set<TxId>)
    requires Waiting(s, S, vOrphan) && IsWaiting(s, S, o)
    requires AmongOrphans(vOrphan, ids) && o.rank.tx.id !in ids
    requires Covers(s, ids, vOrphan)
    ensures Waiting(s, S, vOrphan + [o])
    ensures AmongOrphans(vOrphan + [o], ids + {o.rank.tx.id})
    ensures Covers(s, ids + {o.rank.tx.id}, vOrphan + [o])
  {
    var longer := vOrphan + [o];
    assert longer[|vOrphan|] == o;
    forall id | id in ids + {o.rank.tx.id} && id in s.pool && s.Eligible(s.pool[id]) && s.Parents(s.pool[id].vin) != {}
      ensures HasOrphan(longer, s.pool[id])
    {
      if id in ids {
        var k :| 0 <= k < |vOrphan| && vOrphan[k].rank.tx == s.pool[id];
        assert longer[k].rank.tx == s.pool[id];
      }
    }
  }

  lemma Enqueue(s: Setting, queue: seq<TxPriority>, r: TxPriority)
    requires QueueOk(s, queue) && s.Candidate(r.tx) && r == Rank(s, r.tx) && r.tx.id !in QueueIds(queue)
    ensures QueueOk(s, queue + [r]) && QueueIds(queue + [r]) == QueueIds(queue) + {r.tx.id}
  {
    var longer := queue + [r];
    forall k | 0 <= k < |queue|
      ensures longer[k].tx.id in QueueIds(queue)
    {
      assert longer[k] == queue[k];
    }
    assert longer[|queue|] == r;
    forall id | id in QueueIds(queue) + {r.tx.id}
      ensures id in QueueIds(longer)
    {
      if id in QueueIds(queue) {
        var k: nat :| k < |queue| && queue[k].tx.id == id;
        assert longer[k].tx.id == id;
      }
    }
  }

  /** One transaction of the pool: passed over, queued or put aside until its parents are in the block. */
  method CollectOne(s: Setting, id: TxId, ghost ids: set<TxId>, vOrphan0: seq<Orphan>, mapDependers0: Dependers,
                    vecPriority0: seq<TxPriority>)
    returns (vOrphan: seq<Orphan>, mapDependers: Dependers, vecPriority: seq<TxPriority>)
    requires id in s.pool && s.PooledOk(id) && id !in ids
    requires Waiting(s, {}, vOrphan0) && AmongOrphans(vOrphan0, ids) && Covers(s, ids, vOrphan0)
    requires Lists(s, vOrphan0, mapDependers0)
    requires QueueOk(s, vecPriority0) && QueueIds(vecPriority0) == s.Ready({}) * ids
    ensures Waiting(s, {}, vOrphan) && AmongOrphans(vOrphan, ids + {id}) && Covers(s, ids + {id}, vOrphan)
    ensures Lists(s, vOrphan, mapDependers)
    ensures QueueOk(s, vecPriority) && QueueIds(vecPriority) == s.Ready({}) * (ids + {id})
  {
    hide QueueOk, QueueIds, Lists, Listed, ListedAlso, Waiting;
    vOrphan, mapDependers, vecPriority := vOrphan0, mapDependers0, vecPriority0;
    var tx := s.pool[id];
    if !s.Eligible(tx) {
      return;
    }
    var parents, rank;
    parents, rank, mapDependers := Measure(s, tx, |vOrphan|, mapDependers);
    if parents == {} {
      AddNothing(s, vOrphan0, mapDependers0, mapDependers);
      Enqueue(s, vecPriority0, rank);
      vecPriority := vecPriority + [rank];
    } else {
      var o := Orphan(rank, parents);
      AddOrphan(s, vOrphan0, mapDependers0, o, mapDependers);
      OneMoreOrphan(s, {}, vOrphan0, o, ids);
      vOrphan := vOrphan + [o];
    }
  }

  lemma ReadyPooled(s: Setting, S: set<TxId>)
    ensures s.Ready(S) * s.pool.Keys == s.Ready(S)
  {
  }

  lemma NothingCollected(s: Setting)
    ensures Waiting(s, {}, []) && AmongOrphans([], {}) && Covers(s, {}, []) && Lists(s, [], map[])
    ensures QueueOk(s, []) && QueueIds([]) == {}
  {
  }

  /** The first loop: who can go right away, who waits, and for whom. */
  method Collect(s: Setting) returns (vOrphan: seq<Orphan>, mapDependers: Dependers, vecPriority: seq<TxPriority>)
    requires s.PoolOk()
    ensures Waiting(s, {}, vOrphan) && Covers(s, s.pool.Keys, vOrphan)
    ensures Lists(s, vOrphan, mapDependers)
    ensures QueueOk(s, vecPriority) && QueueIds(vecPriority) == s.Ready({})
  {
    hide QueueOk, QueueIds, Lists, Listed, Waiting, Covers, AmongOrphans, Setting.Ready, Setting.PooledOk;
    vOrphan, mapDependers, vecPriority := [], map[], [];
    NothingCollected(s);
    var todo := s.pool.Keys;
    ghost var ids: set<TxId> := {};
    while todo != {}
      invariant todo <= s.pool.Keys && ids == s.pool.Keys - todo
      invariant Waiting(s, {}, vOrphan) && AmongOrphans(vOrphan, ids) && Covers(s, ids, vOrphan)
      invariant Lists(s, vOrphan, mapDependers)
      invariant QueueOk(s, vecPriority) && QueueIds(vecPriority) == s.Ready({}) * ids
      decreases |todo|
    {
      var id: TxId :| id in todo;
      assert s.PooledOk(id);
      vOrphan, mapDependers, vecPriority := CollectOne(s, id, ids, vOrphan, mapDependers, vecPriority);
      todo, ids := todo - {id}, ids + {id};
    }
    ReadyPooled(s, {});
    assert ids == s.pool.Keys;
  }

  // ---------- the priority queue ----------

  /** TxPriorityCompare: a goes after b. */
  predicate Below(byFee: bool, a: TxPriority, b: TxPriority) {
    if byFee then
      if a.dFeePerKb == b.dFeePerKb then a.dPriority < b.dPriority else a.dFeePerKb < b.dFeePerKb
    else
      if a.dPriority == b.dPriority then a.dFeePerKb < b.dFeePerKb else a.dPriority < b.dPriority
  }

  /** The front of the heap: an entry below no other; the heap's tie-breaking is not modelled. */
  method PopHeap(queue: seq<TxPriority>, byFee: bool) returns (at: nat, rest: seq<TxPriority>)
    requires queue != []
    ensures at < |queue| && rest == queue[..at] + queue[at + 1..]
    ensures forall k :: 0 <= k < |queue| ==> !Below(byFee, queue[at], queue[k])
  {
    at := 0;
    for i := 1 to |queue|
      invariant at < |queue|
      invariant forall k :: 0 <= k < i ==> !Below(byFee, queue[at], queue[k])
    {
      if Below(byFee, queue[at], queue[i]) {
        at := i;
      }
    }
    rest := queue[..at] + queue[at + 1..];
  }

  lemma Dequeue(s: Setting, queue: seq<TxPriority>, at: nat)
    requires QueueOk(s, queue) && at < |queue|
    ensures var rest := queue[..at] + queue[at + 1..];
      QueueOk(s, rest) && QueueIds(rest) == QueueIds(queue) - {queue[at].tx.id}
    ensures queue[at].tx.id in QueueIds(queue) && s.Candidate(queue[at].tx) && queue[at] == Rank(s, queue[at].tx)
  {
    var rest := queue[..at] + queue[at + 1..];
    forall k | 0 <= k < |rest|
      ensures rest[k] == queue[if k < at then k else k + 1]
    {
    }
    assert QueueOk(s, rest);
    DequeueIds(queue, at, rest);
  }

  lemma DequeueIds(queue: seq<TxPriority>, at: nat, rest: seq<TxPriority>)
    requires at < |queue| && rest == queue[..at] + queue[at + 1..]
    requires forall j, k :: 0 <= j < k < |queue| ==> queue[j].tx.id != queue[k].tx.id
    ensures QueueIds(rest) == QueueIds(queue) - {queue[at].tx.id}
  {
    forall id | id in QueueIds(queue) && id != queue[at].tx.id
      ensures id in QueueIds(rest)
    {
      var k: nat :| k < |queue| && queue[k].tx.id == id;
      assert rest[if k < at then k else k - 1].tx.id == id;
    }
    forall id | id in QueueIds(rest)
      ensures id in QueueIds(queue) && id != queue[at].tx.id
    {
      var k: nat :| k < |rest| && rest[k].tx.id == id;
      assert queue[if k < at then k else k + 1].tx.id == id;
    }
  }

  // ---------- releasing the dependers of a selected transaction ----------

  /** Where each orphan stands while the dependers of `hash` are visited: those in `seen` wait for S + {hash}. */
  ghost predicate Releasing(s: Setting, S: set<TxId>, hash: TxId, seen: seq<nat>, vOrphan: seq<Orphan>) {
    && (forall k: nat :: k < |vOrphan| ==> IsWaiting(s, if k in seen then S + {hash} else S, vOrphan[k]))
    && (forall j, k :: 0 <= j < k < |vOrphan| ==> vOrphan[j].rank.tx != vOrphan[k].rank.tx)
  }

  /** The last parent tx waits for is `hash`. */
  ghost predicate Freed(s: Setting, S: set<TxId>, hash: TxId, tx: Tx) {
    !(s.Parents(tx.vin) <= S) && s.Parents(tx.vin) <= S + {hash}
  }

  ghost function Released(s: Setting, S: set<TxId>, hash: TxId, seen: seq<nat>, vOrphan: seq<Orphan>): set<TxId> {
    set k: nat | k < |vOrphan| && k in seen && Freed(s, S, hash, vOrphan[k].rank.tx) :: vOrphan[k].rank.tx.id
  }

  ghost predicate SameRanks(a: seq<Orphan>, b: seq<Orphan>) {
    |a| == |b| && forall k :: 0 <= k < |a| ==> a[k].rank == b[k].rank
  }

  /** Visiting orphan k once more: it stops waiting for hash, and is freed at most the first time. */
  lemma VisitOrphan(s: Setting, S: set<TxId>, hash: TxId, seen: seq<nat>, vOrphan: seq<Orphan>, k: nat)
    requires Releasing(s, S, hash, seen, vOrphan) && k < |vOrphan|
    requires hash !in S && hash in s.Parents(vOrphan[k].rank.tx.vin)
    ensures var o := vOrphan[k]; var o' := o.(setDependsOn := o.setDependsOn - {hash});
      && Releasing(s, S, hash, seen + [k], vOrphan[k := o'])
      && (o.setDependsOn == {} ==> o' == o)
      && (o.setDependsOn != {} && o'.setDependsOn == {} <==> k !in seen && Freed(s, S, hash, o.rank.tx))
  {
    var o := vOrphan[k];
    var o' := o.(setDependsOn := o.setDependsOn - {hash});
    var parents := s.Parents(o.rank.tx.vin);
    assert IsWaiting(s, if k in seen then S + {hash} else S, o);
    assert parents - S - {hash} == parents - (S + {hash});
    assert IsWaiting(s, S + {hash}, o');
    assert k !in seen ==> hash in o.setDependsOn;
    forall j: nat | j < |vOrphan|
      ensures IsWaiting(s, if j in seen + [k] then S + {hash} else S, vOrphan[k := o'][j])
    {
      assert j != k ==> IsWaiting(s, if j in seen then S + {hash} else S, vOrphan[j]);
    }
  }

  lemma ReleasedStep(s: Setting, S: set<TxId>, hash: TxId, seen: seq<nat>, vOrphan: seq<Orphan>, k: nat)
    requires k < |vOrphan|
    ensures Released(s, S, hash, seen + [k], vOrphan) ==
            Released(s, S, hash, seen, vOrphan) +
            if Freed(s, S, hash, vOrphan[k].rank.tx) then {vOrphan[k].rank.tx.id} else {}
  {
  }

  /** A transaction is released by its first visit, and before that it was in neither queue. */
  lemma ReleasedOnce(s: Setting, S: set<TxId>, hash: TxId, seen: seq<nat>, vOrphan: seq<Orphan>, k: nat)
    requires Releasing(s, S, hash, seen, vOrphan) && k < |vOrphan| && k !in seen
    requires Freed(s, S, hash, vOrphan[k].rank.tx)
    ensures vOrphan[k].rank.tx.id !in Released(s, S, hash, seen, vOrphan)
    ensures vOrphan[k].rank.tx.id !in s.Ready(S)
    ensures s.Candidate(vOrphan[k].rank.tx) && vOrphan[k].rank == Rank(s, vOrphan[k].rank.tx)
  {
    forall j: nat | j < |vOrphan| && j in seen
      ensures vOrphan[j].rank.tx.id != vOrphan[k].rank.tx.id
    {
      assert IsWaiting(s, S + {hash}, vOrphan[j]) && IsWaiting(s, S, vOrphan[k]);
    }
    assert IsWaiting(s, S, vOrphan[k]);
  }

  lemma ReleasedSameRanks(s: Setting, S: set<TxId>, hash: TxId, seen: seq<nat>, a: seq<Orphan>, b: seq<Orphan>)
    requires SameRanks(a, b)
    ensures Released(s, S, hash, seen, a) == Released(s, S, hash, seen, b)
  {
  }

  /** Once every listed orphan has been visited, exactly the transactions that became ready have been released. */
  lemma AllReleased(s: Setting, S: set<TxId>, hash: TxId, seen: seq<nat>, vOrphan: seq<Orphan>)
    requires s.PoolOk()
    requires Releasing(s, S, hash, seen, vOrphan) && Covers(s, s.pool.Keys, vOrphan)
    requires Visited(s, hash, seen, vOrphan)
    ensures Waiting(s, S + {hash}, vOrphan)
    ensures Released(s, S, hash, seen, vOrphan) == s.Ready(S + {hash}) - s.Ready(S)
  {
    forall k: nat | k < |vOrphan|
      ensures IsWaiting(s, S + {hash}, vOrphan[k])
    {
      var parents := s.Parents(vOrphan[k].rank.tx.vin);
      assert IsWaiting(s, if k in seen then S + {hash} else S, vOrphan[k]);
      assert k !in seen ==> parents - S == parents - (S + {hash});
    }
    forall id | id in s.Ready(S + {hash}) && id !in s.Ready(S)
      ensures id in Released(s, S, hash, seen, vOrphan)
    {
      BecameReady(s, S, hash, seen, vOrphan, id);
    }
    forall id | id in Released(s, S, hash, seen, vOrphan)
      ensures id in s.Ready(S + {hash}) && id !in s.Ready(S)
    {
      var k: nat :| k < |vOrphan| && k in seen && Freed(s, S, hash, vOrphan[k].rank.tx) && vOrphan[k].rank.tx.id == id;
      assert IsWaiting(s, if k in seen then S + {hash} else S, vOrphan[k]);
    }
  }

  lemma BecameReady(s: Setting, S: set<TxId>, hash: TxId, seen: seq<nat>, vOrphan: seq<Orphan>, id: TxId)
    requires s.PoolOk()
    requires Releasing(s, S, hash, seen, vOrphan) && Covers(s, s.pool.Keys, vOrphan) && Visited(s, hash, seen, vOrphan)
    requires id in s.Ready(S + {hash}) && id !in s.Ready(S)
    ensures id in Released(s, S, hash, seen, vOrphan)
  {
    var tx := s.pool[id];
    assert s.PooledOk(id);
    assert Freed(s, S, hash, tx);
    assert s.Parents(tx.vin) != {};
    assert HasOrphan(vOrphan, tx);
    var k: nat :| k < |vOrphan| && vOrphan[k].rank.tx == tx;
    assert IsWaiting(s, if k in seen then S + {hash} else S, vOrphan[k]);
    assert k in seen;
  }

  lemma StartReleasing(s: Setting, S: set<TxId>, hash: TxId, vOrphan: seq<Orphan>)
    requires Waiting(s, S, vOrphan)
    ensures Releasing(s, S, hash, [], vOrphan) && Released(s, S, hash, [], vOrphan) == {}
  {
  }

  ghost predicate Visited(s: Setting, hash: TxId, seen: seq<nat>, vOrphan: seq<Orphan>) {
    forall k: nat :: k < |vOrphan| && hash in s.Parents(vOrphan[k].rank.tx.vin) ==> k in seen
  }

  lemma ListedPosition(s: Setting, vOrphan: seq<Orphan>, mapDependers: Dependers, hash: TxId)
    requires Lists(s, vOrphan, mapDependers)
    ensures Visited(s, hash, if hash in mapDependers then mapDependers[hash] else [], vOrphan)
    ensures hash in mapDependers ==> forall i :: 0 <= i < |mapDependers[hash]| ==>
      var k := mapDependers[hash][i]; k < |vOrphan| && hash in s.Parents(vOrphan[k].rank.tx.vin)
  {
    forall k: nat | k < |vOrphan| && hash in s.Parents(vOrphan[k].rank.tx.vin)
      ensures hash in mapDependers && k in mapDependers[hash]
    {
      assert Listed(mapDependers, hash, k);
    }
    if hash in mapDependers {
      forall i | 0 <= i < |mapDependers[hash]|
        ensures var k := mapDependers[hash][i]; k < |vOrphan| && hash in s.Parents(vOrphan[k].rank.tx.vin)
      {
        assert Listed(mapDependers, hash, mapDependers[hash][i]);
      }
    }
  }

  lemma ListsSameRanks(s: Setting, a: seq<Orphan>, b: seq<Orphan>, mapDependers: Dependers)
    requires SameRanks(a, b) && Lists(s, a, mapDependers) && Covers(s, s.pool.Keys, a)
    ensures Lists(s, b, mapDependers) && Covers(s, s.pool.Keys, b)
  {
    forall tx: Tx | HasOrphan(a, tx)
      ensures HasOrphan(b, tx)
    {
      var k :| 0 <= k < |a| && a[k].rank.tx == tx;
      assert b[k].rank.tx == tx;
    }
  }

  /**
   * The dependers of a transaction that has just been selected: those whose last missing parent it was enter the
   * queue, once each, however many of its outputs they spend.
   */
  method Release(s: Setting, ghost S: set<TxId>, hash: TxId, vOrphan0: seq<Orphan>, mapDependers: Dependers,
                 queue0: seq<TxPriority>)
    returns (vOrphan: seq<Orphan>, queue: seq<TxPriority>)
    requires s.PoolOk() && hash !in S
    requires Waiting(s, S, vOrphan0) && Covers(s, s.pool.Keys, vOrphan0) && Lists(s, vOrphan0, mapDependers)
    requires QueueOk(s, queue0) && QueueIds(queue0) <= s.Ready(S)
    ensures Waiting(s, S + {hash}, vOrphan) && Covers(s, s.pool.Keys, vOrphan) && Lists(s, vOrphan, mapDependers)
    ensures QueueOk(s, queue)
    ensures QueueIds(queue) == QueueIds(queue0) + (s.Ready(S + {hash}) - s.Ready(S))
  {
    hide QueueOk, QueueIds, Lists, Listed, Waiting, Covers, Releasing, Released, Freed, Visited, Setting.Parents, Setting.Ready,
      Setting.PoolOk;
    vOrphan, queue := vOrphan0, queue0;
    StartReleasing(s, S, hash, vOrphan);
    ListedPosition(s, vOrphan, mapDependers, hash);
    var dependers := if hash in mapDependers then mapDependers[hash] else [];
    for i := 0 to |dependers|
      invariant SameRanks(vOrphan0, vOrphan)
      invariant Releasing(s, S, hash, dependers[..i], vOrphan)
      invariant QueueOk(s, queue)
      invariant QueueIds(queue) == QueueIds(queue0) + Released(s, S, hash, dependers[..i], vOrphan)
    {
      var k := dependers[i];
      ghost var seen := dependers[..i];
      assert dependers[..i + 1] == seen + [k];
      VisitOrphan(s, S, hash, seen, vOrphan, k);
      ReleasedStep(s, S, hash, seen, vOrphan, k);
      var porphan := vOrphan[k];
      if porphan.setDependsOn != {} {
        porphan := porphan.(setDependsOn := porphan.setDependsOn - {hash});
        if porphan.setDependsOn == {} {
          ReleasedOnce(s, S, hash, seen, vOrphan, k);
          Enqueue(s, queue, porphan.rank);
          queue := queue + [porphan.rank];
        } else {
          NotFreedTwice(s, S, hash, seen, vOrphan, k);
        }
      } else {
        NotFreedTwice(s, S, hash, seen, vOrphan, k);
      }
      ReleasedSameRanks(s, S, hash, seen + [k], vOrphan, vOrphan[k := porphan]);
      vOrphan := vOrphan[k := porphan];
    }
    assert dependers[..|dependers|] == dependers;
    ListsSameRanks(s, vOrphan0, vOrphan, mapDependers);
    ListedPosition(s, vOrphan, mapDependers, hash);
    AllReleased(s, S, hash, dependers, vOrphan);
  }

  lemma NotFreedTwice(s: Setting, S: set<TxId>, hash: TxId, seen: seq<nat>, vOrphan: seq<Orphan>, k: nat)
    requires k < |vOrphan| && (k in seen || !Freed(s, S, hash, vOrphan[k].rank.tx))
    ensures Released(s, S, hash, seen + [k], vOrphan) == Released(s, S, hash, seen, vOrphan)
  {
  }
}
