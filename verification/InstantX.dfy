/** Transaction locks by masternode votes (src/instantx.cpp). */
module InstantX {
  import opened Common
  import opened MasternodeRanks
  import opened Transactions

  const SIGNATURES_REQUIRED: int := 10
  const SIGNATURES_TOTAL: int := 15

  datatype LockTx = LockTx(id: TxId, vin: seq<OutPoint>)

  /** What mapTxLockReq[h] creates when h has no entry: a transaction without inputs. */
  const EMPTY_TX: LockTx := LockTx(0, [])

  datatype Vote = Vote(vinMasternode: TxIn, txHash: TxId, nBlockHeight: int)

  /** The id of a vote, some function of the masternode's outpoint and the transaction; two votes may share one. */
  type VoteId = nat

  type IdFunction = (OutPoint, TxId) -> VoteId

  function IdOf(idOf: IdFunction, v: Vote): VoteId {
    idOf(v.vinMasternode.prevout, v.txHash)
  }

  datatype Lock = Lock(nBlockHeight: int, txHash: TxId, votes: seq<Vote>, nExpiration: int, nTimeout: int)

  /** The order of the masternodes at each height, best first; fixed while votes for the height are counted. */
  type Ranking = int -> seq<Scored>

  /** At height h the order is the one in which the listed, enabled masternodes of this protocol rank by score. */
  ghost predicate RankedFrom(ranking: Ranking, mns: seq<Masternode>, f: ScoreAt, minProtocol: int, h: int) {
    && DistinctVins(mns) && Descending(ranking(h))
    && multiset(ranking(h)) == multiset(Scores(mns, f, h, minProtocol, true))
  }

  /** Listed with this protocol version or a later one, and enabled. */
  predicate Enabled(mns: seq<Masternode>, minProtocol: int, vin: TxIn) {
    exists mn <- mns :: mn.vin == vin && mn.protocolVersion >= minProtocol && mn.fEnabled
  }

  predicate InQuorum(ranking: Ranking, v: Vote) {
    var n := RankIn(ranking(v.nBlockHeight), v.vinMasternode);
    n != -1 && n <= SIGNATURES_TOTAL
  }

  // ---------- one lock ----------

  ghost predicate DistinctVoters(votes: seq<Vote>) {
    forall j, k :: 0 <= j < k < |votes| ==> votes[j].vinMasternode.prevout != votes[k].vinMasternode.prevout
  }

  /** Votes for this transaction only, each from another masternode, and each ranked for the height it names. */
  ghost predicate LockOk(ranking: Ranking, h: TxId, l: Lock) {
    && l.txHash == h && DistinctVoters(l.votes)
    && forall k :: 0 <= k < |l.votes| ==> l.votes[k].txHash == h && InQuorum(ranking, l.votes[k])
  }

  function Matching(votes: seq<Vote>, nBlockHeight: int): seq<Vote> {
    if votes == [] then []
    else
      Matching(votes[..|votes| - 1], nBlockHeight)
      + if votes[|votes| - 1].nBlockHeight == nBlockHeight then [votes[|votes| - 1]] else []
  }

  /** -1 while the height of the lock is not known; only votes for that height count. */
  function SignatureCount(l: Lock): int {
    if l.nBlockHeight == 0 then -1 else |Matching(l.votes, l.nBlockHeight)|
  }

  predicate Complete(l: Lock) {
    SignatureCount(l) >= SIGNATURES_REQUIRED
  }

  method CountSignatures(l: Lock) returns (n: int)
    ensures n == SignatureCount(l)
  {
    if l.nBlockHeight == 0 {
      return -1;
    }
    n := 0;
    for i := 0 to |l.votes|
      invariant n == |Matching(l.votes[..i], l.nBlockHeight)|
    {
      assert l.votes[..i + 1][..i] == l.votes[..i];
      if l.votes[i].nBlockHeight == l.nBlockHeight {
        n := n + 1;
      }
    }
    assert l.votes[..|l.votes|] == l.votes;
  }

  /** The outpoints of the masternodes whose votes count. */
  ghost function Voters(votes: seq<Vote>): set<OutPoint> {
    set v | v in votes :: v.vinMasternode.prevout
  }

  ghost function CountedVoters(l: Lock): set<OutPoint> {
    Voters(Matching(l.votes, l.nBlockHeight))
  }

  /** The outpoints of the best masternodes at a height. */
  ghost function Top(ranking: Ranking, h: int): set<OutPoint> {
    set k: nat | k < |ranking(h)| && k < 15 :: ranking(h)[k].vin.prevout
  }

  lemma {:induction false} MatchingVotes(votes: seq<Vote>, h: int)
    requires DistinctVoters(votes)
    ensures DistinctVoters(Matching(votes, h))
    ensures forall v :: v in Matching(votes, h) <==> v in votes && v.nBlockHeight == h
  {
    if votes != [] {
      var n := |votes| - 1;
      MatchingVotes(votes[..n], h);
      assert votes == votes[..n] + [votes[n]];
      var front := Matching(votes[..n], h);
      forall k | 0 <= k < |front|
        ensures front[k].vinMasternode.prevout != votes[n].vinMasternode.prevout
      {
        assert front[k] in votes[..n];
      }
    }
  }

  lemma VotersSnoc(votes: seq<Vote>, v: Vote)
    requires DistinctVoters(votes + [v])
    ensures Voters(votes + [v]) == Voters(votes) + {v.vinMasternode.prevout}
    ensures v.vinMasternode.prevout !in Voters(votes)
  {
    forall k | 0 <= k < |votes|
      ensures votes[k].vinMasternode.prevout != v.vinMasternode.prevout
    {
      assert (votes + [v])[k] == votes[k] && (votes + [v])[|votes|] == v;
    }
  }

  lemma {:induction false} VoterCount(votes: seq<Vote>)
    requires DistinctVoters(votes)
    ensures |Voters(votes)| == |votes|
  {
    if votes != [] {
      var n := |votes| - 1;
      VoterCount(votes[..n]);
      assert votes == votes[..n] + [votes[n]];
      VotersSnoc(votes[..n], votes[n]);
    }
  }

  lemma {:induction false} UpTo(ranking: Ranking, h: int, n: nat)
    requires n <= |ranking(h)|
    ensures |set k: nat | k < n :: ranking(h)[k].vin.prevout| <= n
  {
    if n > 0 {
      UpTo(ranking, h, n - 1);
      var before := set k: nat | k < n - 1 :: ranking(h)[k].vin.prevout;
      assert (set k: nat | k < n :: ranking(h)[k].vin.prevout) == before + {ranking(h)[n - 1].vin.prevout};
    }
  }

  lemma TopSize(ranking: Ranking, h: int)
    ensures |Top(ranking, h)| <= 15
  {
    var n := if |ranking(h)| < 15 then |ranking(h)| else 15;
    UpTo(ranking, h, n);
    assert Top(ranking, h) == set k: nat | k < n :: ranking(h)[k].vin.prevout;
  }

  /** A complete lock has the votes of at least ten different masternodes among the best fifteen of its height. */
  lemma CompleteLockHasQuorum(ranking: Ranking, h: TxId, l: Lock)
    requires LockOk(ranking, h, l) && Complete(l)
    ensures |CountedVoters(l)| >= 10 && CountedVoters(l) <= Top(ranking, l.nBlockHeight)
  {
    MatchingVotes(l.votes, l.nBlockHeight);
    VoterCount(Matching(l.votes, l.nBlockHeight));
    forall v | v in Matching(l.votes, l.nBlockHeight)
      ensures v.vinMasternode.prevout in Top(ranking, l.nBlockHeight)
    {
      var k :| 0 <= k < |l.votes| && l.votes[k] == v;
      assert InQuorum(ranking, l.votes[k]);
      var n := RankIn(ranking(l.nBlockHeight), v.vinMasternode);
      assert ranking(l.nBlockHeight)[n - 1].vin == v.vinMasternode;
    }
  }

  /** When the order is that of the masternode list, the voters are listed and enabled, and fewer than 15 score higher. */
  lemma VotersAreRanked(ranking: Ranking, mns: seq<Masternode>, f: ScoreAt, minProtocol: int, h: TxId, l: Lock, v: Vote)
    requires LockOk(ranking, h, l) && RankedFrom(ranking, mns, f, minProtocol, l.nBlockHeight)
    requires v in Matching(l.votes, l.nBlockHeight)
    ensures Enabled(mns, minProtocol, v.vinMasternode)
    ensures Above(Scores(mns, f, l.nBlockHeight, minProtocol, true), f(v.vinMasternode, l.nBlockHeight)) < 15
  {
    MatchingVotes(l.votes, l.nBlockHeight);
    var k :| 0 <= k < |l.votes| && l.votes[k] == v;
    assert InQuorum(ranking, l.votes[k]);
    RankedForMeans(mns, f, l.nBlockHeight, minProtocol, true, ranking(l.nBlockHeight), true, v.vinMasternode);
  }

  /** A masternode is of the top 15 iff it is one of the first 15 in the order. */
  lemma InQuorumIff(ranking: Ranking, v: Vote)
    ensures var order := ranking(v.nBlockHeight);
      InQuorum(ranking, v) <==> exists k :: 0 <= k < |order| && k <= 14 && order[k].vin == v.vinMasternode
  {
    var order := ranking(v.nBlockHeight);
    FirstRank(order, v.vinMasternode);
    var n := RankIn(order, v.vinMasternode);
    if InQuorum(ranking, v) {
      assert order[n - 1].vin == v.vinMasternode;
    }
  }

  lemma {:induction false} FirstRank(order: seq<Scored>, vin: TxIn)
    ensures var n := RankIn(order, vin);
      forall k :: 0 <= k < (if n == -1 then |order| else n - 1) ==> order[k].vin != vin
  {
    if order != [] {
      FirstRank(order[..|order| - 1], vin);
    }
  }

  /** Conversely, a masternode that is listed and enabled and is among at most 15 that do not score below it is of the top 15. */
  lemma EnoughBelow(ranking: Ranking, mns: seq<Masternode>, f: ScoreAt, minProtocol: int, v: Vote)
    requires RankedFrom(ranking, mns, f, minProtocol, v.nBlockHeight) && Enabled(mns, minProtocol, v.vinMasternode)
    requires var scores := Scores(mns, f, v.nBlockHeight, minProtocol, true);
      |scores| - Below(scores, f(v.vinMasternode, v.nBlockHeight)) <= 15
    ensures InQuorum(ranking, v)
  {
    RankedForMeans(mns, f, v.nBlockHeight, minProtocol, true, ranking(v.nBlockHeight), true, v.vinMasternode);
  }

  /**
   * Two complete locks of one height share at least five voters, whatever transactions they are for: for both of two
   * conflicting transactions to be locked, five of the fifteen have to vote for both.
   */
  lemma CompleteLocksOverlap(ranking: Ranking, h1: TxId, l1: Lock, h2: TxId, l2: Lock)
    requires LockOk(ranking, h1, l1) && LockOk(ranking, h2, l2) && Complete(l1) && Complete(l2)
    requires l1.nBlockHeight == l2.nBlockHeight
    ensures |CountedVoters(l1) * CountedVoters(l2)| >= 5
  {
    CompleteLockHasQuorum(ranking, h1, l1);
    CompleteLockHasQuorum(ranking, h2, l2);
    TopSize(ranking, l1.nBlockHeight);
    var a, b := CountedVoters(l1), CountedVoters(l2);
    SubsetSize(a + b, Top(ranking, l1.nBlockHeight));
    assert |a + b| == |a| + |b| - |a * b|;
  }

  /** The first input that another transaction has locked. */
  function FirstConflict(locked: map<OutPoint, TxId>, vin: seq<OutPoint>, id: TxId): Option<TxId> {
    if vin == [] then None
    else if vin[0] in locked && locked[vin[0]] != id then Some(locked[vin[0]])
    else FirstConflict(locked, vin[1..], id)
  }

  /** The inputs not locked yet become locked by id. */
  function LockInputs(locked: map<OutPoint, TxId>, vin: seq<OutPoint>, id: TxId): map<OutPoint, TxId> {
    map o | o in locked.Keys + (set p | p in vin) :: if o in locked then locked[o] else id
  }

  function Expire(locks: map<TxId, Lock>, h: TxId, nNow: int): map<TxId, Lock> {
    if h in locks then locks[h := locks[h].(nExpiration := nNow)] else locks
  }

  function VotesFor(locks: map<TxId, Lock>, h: TxId): seq<Vote> {
    if h in locks then locks[h].votes else []
  }

  /** All of these inputs are locked by id. */
  ghost predicate Held(locked: map<OutPoint, TxId>, vin: seq<OutPoint>, id: TxId) {
    forall o <- vin :: o in locked && locked[o] == id
  }

  // ---------- the invariant ----------

  ghost predicate VotesKnown(idOf: IdFunction, known: map<VoteId, Vote>, l: Lock) {
    forall k :: 0 <= k < |l.votes| ==> IdOf(idOf, l.votes[k]) in known
  }

  /** No two votes, in one lock or in two, have the same id. */
  ghost predicate IdsApart(idOf: IdFunction, locks: map<TxId, Lock>) {
    forall x, y, j, k :: x in locks && y in locks && 0 <= j < |locks[x].votes| && 0 <= k < |locks[y].votes| && (x != y || j != k) ==>
      IdOf(idOf, locks[x].votes[j]) != IdOf(idOf, locks[y].votes[k])
  }

  /** Every vote in a lock is known by its id, so that no second vote with that id can get into a lock. */
  ghost predicate LocksOk(ranking: Ranking, idOf: IdFunction, known: map<VoteId, Vote>, locks: map<TxId, Lock>) {
    && (forall h :: h in locks ==> LockOk(ranking, h, locks[h]) && VotesKnown(idOf, known, locks[h]))
    && IdsApart(idOf, locks)
  }

  /**
   * A request is accepted or rejected; a rejected one can also have an empty entry among the accepted ones. A lock gets
   * its height from its request.
   */
  ghost predicate RequestsOk(req: map<TxId, LockTx>, rejected: map<TxId, LockTx>, locks: map<TxId, Lock>) {
    && (forall h :: h in req ==> if h in rejected then req[h] == EMPTY_TX else req[h].id == h)
    && (forall h :: h in rejected ==> rejected[h].id == h)
    && (forall h :: h in locks && locks[h].nBlockHeight != 0 ==> h in req || h in rejected)
  }

  /** The transaction whose lock was requested, whether or not the request was accepted. */
  function RequestOf(req: map<TxId, LockTx>, rejected: map<TxId, LockTx>, h: TxId): LockTx
    requires h in req || h in rejected
  {
    if h in rejected then rejected[h] else req[h]
  }

  // ---------- a vote and what it completes ----------

  function NewLock(h: TxId, nBlockHeight: int, nNow: int): Lock {
    Lock(nBlockHeight, h, [], nNow + 20 * 60, nNow + 60 * 5)
  }

  function WithVote(locks: map<TxId, Lock>, ctx: Vote, nNow: int): Lock {
    var lock := if ctx.txHash in locks then locks[ctx.txHash] else NewLock(ctx.txHash, 0, nNow);
    lock.(votes := lock.votes + [ctx])
  }

  /**
   * What finding the lock of h complete does. With an accepted request the inputs become locked, or the lock and the
   * first one in conflict with it expire; with a rejected one nothing happens but that an empty request is recorded.
   */
  ghost predicate Completed(req: map<TxId, LockTx>, rejected: map<TxId, LockTx>, locks: map<TxId, Lock>,
                            locked: map<OutPoint, TxId>, h: TxId, nNow: int,
                            req': map<TxId, LockTx>, locks': map<TxId, Lock>, locked': map<OutPoint, TxId>)
  {
    if h in rejected then req' == req[h := EMPTY_TX] && locks' == locks && locked' == locked
    else if h !in req then false
    else
      && req' == req
      && match FirstConflict(locked, req[h].vin, h)
         case None => locks' == locks && locked' == LockInputs(locked, req[h].vin, h)
         case Some(other) => locks' == Expire(Expire(locks, h, nNow), other, nNow) && locked' == locked
  }

  /** What a vote that is counted does. */
  ghost predicate Counted(req: map<TxId, LockTx>, rejected: map<TxId, LockTx>, locks: map<TxId, Lock>,
                          locked: map<OutPoint, TxId>, ctx: Vote, nNow: int,
                          req': map<TxId, LockTx>, locks': map<TxId, Lock>, locked': map<OutPoint, TxId>)
  {
    var lock := WithVote(locks, ctx, nNow);
    var voted := locks[ctx.txHash := lock];
    if Complete(lock) then Completed(req, rejected, voted, locked, ctx.txHash, nNow, req', locks', locked')
    else req' == req && locks' == voted && locked' == locked
  }

  /** The lock of h holds all inputs, or some input is another's and both locks expire now. */
  ghost predicate Settled(tx: LockTx, locks: map<TxId, Lock>, locked: map<OutPoint, TxId>, h: TxId, nNow: int) {
    Held(locked, tx.vin, h) || (h in locks && locks[h].nExpiration == nNow && RivalExpires(tx, locks, locked, h, nNow))
  }

  ghost predicate RivalExpires(tx: LockTx, locks: map<TxId, Lock>, locked: map<OutPoint, TxId>, h: TxId, nNow: int) {
    exists o :: o in tx.vin && o in locked && locked[o] != h &&
      (locked[o] in locks ==> locks[locked[o]].nExpiration == nNow)
  }

  /**
   * A lock found complete holds its inputs, or cancels out with its rival, exactly when its request was accepted or
   * the rejected request holds all of them already.
   */
  lemma SettledIff(req: map<TxId, LockTx>, rejected: map<TxId, LockTx>, locks: map<TxId, Lock>,
                   locked: map<OutPoint, TxId>, h: TxId, nNow: int,
                   req': map<TxId, LockTx>, locks': map<TxId, Lock>, locked': map<OutPoint, TxId>)
    requires RequestsOk(req, rejected, locks) && h in locks && Complete(locks[h])
    requires Completed(req, rejected, locks, locked, h, nNow, req', locks', locked')
    requires locks[h].nExpiration != nNow
    ensures h in req || h in rejected
    ensures Settled(RequestOf(req, rejected, h), locks', locked', h, nNow)
       <==> h !in rejected || Held(locked, rejected[h].vin, h)
  {
    if h !in rejected {
      var tx := req[h];
      match FirstConflict(locked, tx.vin, h) {
        case None =>
          AllLocked(locked, tx.vin, h);
        case Some(other) =>
          var o := Rival(locked, tx.vin, h);
          assert o in tx.vin && o in locked' && locked'[o] == other;
      }
    }
  }

  /** The input that the first conflict is about. */
  lemma {:induction false} Rival(locked: map<OutPoint, TxId>, vin: seq<OutPoint>, id: TxId) returns (o: OutPoint)
    requires FirstConflict(locked, vin, id).Some?
    ensures o in vin && o in locked && locked[o] == FirstConflict(locked, vin, id).value != id
  {
    if vin[0] in locked && locked[vin[0]] != id {
      o := vin[0];
    } else {
      o := Rival(locked, vin[1..], id);
    }
  }

  /** Inputs stay with the transaction that locked them first. */
  lemma HoldersStay(req: map<TxId, LockTx>, rejected: map<TxId, LockTx>, locks: map<TxId, Lock>,
                    locked: map<OutPoint, TxId>, ctx: Vote, nNow: int,
                    req': map<TxId, LockTx>, locks': map<TxId, Lock>, locked': map<OutPoint, TxId>)
    requires Counted(req, rejected, locks, locked, ctx, nNow, req', locks', locked')
    ensures forall o :: o in locked ==> o in locked' && locked'[o] == locked[o]
    ensures locked' != locked ==> Complete(WithVote(locks, ctx, nNow)) && ctx.txHash !in rejected
  {
  }

  /** A rejected request leaves its transaction with all inputs exactly when each was free or its own. */
  lemma {:induction false} HeldIffNoConflict(locked: map<OutPoint, TxId>, vin: seq<OutPoint>, id: TxId)
    ensures Held(LockInputs(locked, vin, id), vin, id) <==> FirstConflict(locked, vin, id).None?
  {
    if FirstConflict(locked, vin, id).None? {
      AllLocked(locked, vin, id);
    } else {
      var o := Rival(locked, vin, id);
    }
  }

  /** Locking the free inputs makes and ends no conflict. */
  lemma {:induction false} SameConflict(locked: map<OutPoint, TxId>, more: seq<OutPoint>, vin: seq<OutPoint>, id: TxId)
    ensures FirstConflict(LockInputs(locked, more, id), vin, id) == FirstConflict(locked, vin, id)
  {
    if vin != [] {
      SameConflict(locked, more, vin[1..], id);
    }
  }

  // ---------- a request ----------

  /** The lock that a request makes or gives its height, unless an input is too young. */
  function Requested(locks: map<TxId, Lock>, tx: LockTx, age: OutPoint -> int, nBestHeight: int, nNow: int): map<TxId, Lock> {
    if exists o <- tx.vin :: age(o) < 9 then locks
    else
      var nBlockHeight := nBestHeight - (if tx.vin == [] then 0 else age(tx.vin[0])) + 4;
      if tx.id in locks then locks[tx.id := locks[tx.id].(nBlockHeight := nBlockHeight)]
      else locks[tx.id := NewLock(tx.id, nBlockHeight, nNow)]
  }

  /** A rejected request finds its lock complete already and in conflict: then both expire. */
  function Conflicted(locks: map<TxId, Lock>, locked: map<OutPoint, TxId>, tx: LockTx, nNow: int): map<TxId, Lock> {
    if tx.id in locks && Complete(locks[tx.id]) && FirstConflict(locked, tx.vin, tx.id).Some? then
      Expire(Expire(locks, tx.id, nNow), FirstConflict(locked, tx.vin, tx.id).value, nNow)
    else locks
  }

  class InstantXState {
    const ranking: Ranking
    const idOf: IdFunction
    var mapTxLockReq: map<TxId, LockTx>
    var mapTxLockReqRejected: map<TxId, LockTx>
    var mapTxLockVote: map<VoteId, Vote>
    var mapTxLocks: map<TxId, Lock>
    var mapLockedInputs: map<OutPoint, TxId>

    ghost predicate Valid()
      reads this
    {
      && LocksOk(ranking, idOf, mapTxLockVote, mapTxLocks)
      && RequestsOk(mapTxLockReq, mapTxLockReqRejected, mapTxLocks)
    }

    constructor (ranking: Ranking, idOf: IdFunction)
      ensures Valid() && mapTxLocks == map[] && mapLockedInputs == map[] && this.ranking == ranking && this.idOf == idOf
      ensures mapTxLockReq == map[] && mapTxLockReqRejected == map[] && mapTxLockVote == map[]
    {
      this.ranking, this.idOf := ranking, idOf;
      mapTxLockReq, mapTxLockReqRejected, mapTxLockVote, mapTxLocks, mapLockedInputs := map[], map[], map[], map[], map[];
    }

    method CheckForConflictingLocks(tx: LockTx, nNow: int) returns (conflict: bool)
      modifies this`mapTxLocks
      ensures conflict <==> FirstConflict(mapLockedInputs, tx.vin, tx.id).Some?
      ensures mapTxLocks ==
              if conflict then Expire(Expire(old(mapTxLocks), tx.id, nNow),
                                      FirstConflict(mapLockedInputs, tx.vin, tx.id).value, nNow)
              else old(mapTxLocks)
    {
      for i := 0 to |tx.vin|
        invariant FirstConflict(mapLockedInputs, tx.vin, tx.id) == FirstConflict(mapLockedInputs, tx.vin[i..], tx.id)
        invariant mapTxLocks == old(mapTxLocks)
      {
        var o := tx.vin[i];
        assert tx.vin[i..][1..] == tx.vin[i + 1..];
        if o in mapLockedInputs && mapLockedInputs[o] != tx.id {
          if tx.id in mapTxLocks {
            mapTxLocks := mapTxLocks[tx.id := mapTxLocks[tx.id].(nExpiration := nNow)];
          }
          if mapLockedInputs[o] in mapTxLocks {
            mapTxLocks := mapTxLocks[mapLockedInputs[o] := mapTxLocks[mapLockedInputs[o]].(nExpiration := nNow)];
          }
          return true;
        }
      }
      return false;
    }

    method LockInputsOf(tx: LockTx, id: TxId)
      modifies this`mapLockedInputs
      ensures mapLockedInputs == LockInputs(old(mapLockedInputs), tx.vin, id)
    {
      for i := 0 to |tx.vin|
        invariant mapLockedInputs == LockInputs(old(mapLockedInputs), tx.vin[..i], id)
      {
        assert tx.vin[..i + 1] == tx.vin[..i] + [tx.vin[i]];
        if tx.vin[i] !in mapLockedInputs {
          mapLockedInputs := mapLockedInputs[tx.vin[i] := id];
        }
      }
      assert tx.vin[..|tx.vin|] == tx.vin;
    }

    /** `age` gives the confirmations of an input; the last one looked at is the first of the transaction. */
    method CreateNewLock(tx: LockTx, age: OutPoint -> int, nBestHeight: int, nNow: int) returns (nBlockHeight: int)
      requires LocksOk(ranking, idOf, mapTxLockVote, mapTxLocks)
      modifies this`mapTxLocks
      ensures LocksOk(ranking, idOf, mapTxLockVote, mapTxLocks)
      ensures mapTxLocks == Requested(old(mapTxLocks), tx, age, nBestHeight, nNow)
      ensures nBlockHeight == if exists o <- tx.vin :: age(o) < 9 then 0 else mapTxLocks[tx.id].nBlockHeight
      // an existing lock keeps its votes, and no other lock changes
      ensures tx.id in mapTxLocks ==> mapTxLocks[tx.id].votes == VotesFor(old(mapTxLocks), tx.id)
      ensures forall h :: h != tx.id ==> (h in mapTxLocks <==> h in old(mapTxLocks))
      ensures forall h :: h in old(mapTxLocks) && h != tx.id ==> mapTxLocks[h] == old(mapTxLocks)[h]
    {
      hide LocksOk, Complete;
      var nTxAge := 0;
      var i := |tx.vin|;
      while i > 0
        invariant 0 <= i <= |tx.vin| && forall k :: i <= k < |tx.vin| ==> age(tx.vin[k]) >= 9
        invariant nTxAge == if i < |tx.vin| then age(tx.vin[i]) else 0
      {
        i := i - 1;
        nTxAge := age(tx.vin[i]);
        if nTxAge < 9 {
          assert tx.vin[i] in tx.vin;
          return 0;
        }
      }
      nBlockHeight := nBestHeight - nTxAge + 4;
      LockRequested(ranking, idOf, mapTxLockVote, mapTxLocks, tx.id, nBlockHeight, nNow);
      if tx.id !in mapTxLocks {
        mapTxLocks := mapTxLocks[tx.id := NewLock(tx.id, nBlockHeight, nNow)];
      } else {
        mapTxLocks := mapTxLocks[tx.id := mapTxLocks[tx.id].(nBlockHeight := nBlockHeight)];
      }
    }

    /** A vote that has not been seen before; `fSignatureValid` is the outcome of checking its signature. */
    method ProcessConsensusVote(ctx: Vote, fSignatureValid: bool, nNow: int) returns (ok: bool)
      requires Valid() && IdOf(idOf, ctx) in mapTxLockVote && NewId(idOf, mapTxLocks, ctx)
      modifies this`mapTxLocks, this`mapTxLockReq, this`mapLockedInputs
      ensures Valid()
      ensures ok <==> InQuorum(ranking, ctx) && fSignatureValid
      ensures !ok ==> mapTxLocks == old(mapTxLocks) && mapLockedInputs == old(mapLockedInputs)
                      && mapTxLockReq == old(mapTxLockReq)
      ensures ok ==> Counted(old(mapTxLockReq), mapTxLockReqRejected, old(mapTxLocks), old(mapLockedInputs), ctx, nNow,
                             mapTxLockReq, mapTxLocks, mapLockedInputs)
      ensures ok ==> ctx.txHash in mapTxLocks && mapTxLocks.Keys == old(mapTxLocks).Keys + {ctx.txHash}
      ensures ok ==> mapTxLocks[ctx.txHash].votes == VotesFor(old(mapTxLocks), ctx.txHash) + [ctx]
      ensures ok ==> forall h :: h in old(mapTxLocks) ==>
        && mapTxLocks[h].nBlockHeight == old(mapTxLocks)[h].nBlockHeight
        && (h != ctx.txHash ==> mapTxLocks[h].votes == old(mapTxLocks)[h].votes)
      // inputs stay with the transaction that locked them first; only a complete lock takes new ones
      ensures forall o :: o in old(mapLockedInputs) ==> o in mapLockedInputs && mapLockedInputs[o] == old(mapLockedInputs)[o]
      ensures mapLockedInputs != old(mapLockedInputs) ==> ok && Complete(mapTxLocks[ctx.txHash])
    {
      hide InQuorum, LocksOk, RequestsOk, NewId, SignatureCount, FirstConflict, LockInputs;
      if !InQuorum(ranking, ctx) || !fSignatureValid {
        return false;
      }
      var lock := if ctx.txHash in mapTxLocks then mapTxLocks[ctx.txHash] else NewLock(ctx.txHash, 0, nNow);
      lock := lock.(votes := lock.votes + [ctx]);
      VoteAdded(ranking, idOf, mapTxLockVote, mapTxLocks, ctx, nNow);
      HeightsKept(mapTxLockReq, mapTxLockReqRejected, mapTxLocks, ctx.txHash, lock);
      mapTxLocks := mapTxLocks[ctx.txHash := lock];
      var n := CountSignatures(lock);
      if n >= SIGNATURES_REQUIRED {
        CompleteLock(ctx.txHash, nNow);
      }
      HoldersStay(old(mapTxLockReq), mapTxLockReqRejected, old(mapTxLocks), old(mapLockedInputs), ctx, nNow,
                  mapTxLockReq, mapTxLocks, mapLockedInputs);
      return true;
    }

    /** A lock that has its signatures takes the inputs of its transaction, unless another lock holds one of them. */
    method CompleteLock(h: TxId, nNow: int)
      requires Valid() && h in mapTxLocks && Complete(mapTxLocks[h])
      modifies this`mapTxLocks, this`mapTxLockReq, this`mapLockedInputs
      ensures Valid()
      ensures Completed(old(mapTxLockReq), mapTxLockReqRejected, old(mapTxLocks), old(mapLockedInputs), h, nNow,
                        mapTxLockReq, mapTxLocks, mapLockedInputs)
      ensures mapTxLocks.Keys == old(mapTxLocks).Keys && forall x :: x in mapTxLocks ==>
        mapTxLocks[x] == old(mapTxLocks)[x].(nExpiration := mapTxLocks[x].nExpiration)
      ensures h in old(mapTxLockReq) || h in mapTxLockReqRejected
      ensures old(mapTxLocks)[h].nExpiration != nNow ==>
        (Settled(RequestOf(old(mapTxLockReq), mapTxLockReqRejected, h), mapTxLocks, mapLockedInputs, h, nNow)
         <==> h !in mapTxLockReqRejected || Held(old(mapLockedInputs), mapTxLockReqRejected[h].vin, h))
    {
      hide LocksOk, RequestsOk, Settled, Held, Completed, Expire, FirstConflict, LockInputs, SignatureCount;
      ghost var req, locks, locked := mapTxLockReq, mapTxLocks, mapLockedInputs;
      CompleteIsRequested(req, mapTxLockReqRejected, locks, h);
      CompletedCases(req, mapTxLockReqRejected, locks, locked, h, nNow);
      if h !in mapTxLockReq {
        mapTxLockReq := mapTxLockReq[h := EMPTY_TX];
      }
      var tx := mapTxLockReq[h];
      var conflict := CheckForConflictingLocks(tx, nNow);
      ExpireKeeps(ranking, idOf, mapTxLockVote, locks, tx.id, nNow);
      if conflict {
        var other := FirstConflict(locked, tx.vin, tx.id).value;
        ExpireKeeps(ranking, idOf, mapTxLockVote, Expire(locks, tx.id, nNow), other, nNow);
      } else {
        LockInputsOf(tx, h);
      }
      if locks[h].nExpiration != nNow {
        SettledIff(req, mapTxLockReqRejected, locks, locked, h, nNow, mapTxLockReq, mapTxLocks, mapLockedInputs);
      }
    }

    /** The "txlvote" message: a second vote with the same id is dropped, and so one masternode votes once. */
    method ReceiveVote(ctx: Vote, fSignatureValid: bool, nNow: int)
      requires Valid()
      modifies this`mapTxLocks, this`mapTxLockReq, this`mapLockedInputs, this`mapTxLockVote
      ensures Valid() && mapTxLockVote.Keys == old(mapTxLockVote).Keys + {IdOf(idOf, ctx)}
      ensures IdOf(idOf, ctx) in old(mapTxLockVote) || !InQuorum(ranking, ctx) || !fSignatureValid ==>
        mapTxLocks == old(mapTxLocks) && mapTxLockReq == old(mapTxLockReq) && mapLockedInputs == old(mapLockedInputs)
      ensures IdOf(idOf, ctx) !in old(mapTxLockVote) && InQuorum(ranking, ctx) && fSignatureValid ==>
        Counted(old(mapTxLockReq), mapTxLockReqRejected, old(mapTxLocks), old(mapLockedInputs), ctx, nNow,
                mapTxLockReq, mapTxLocks, mapLockedInputs)
        && ctx.txHash in mapTxLocks && ctx in mapTxLocks[ctx.txHash].votes
    {
      hide LocksOk, RequestsOk, InQuorum, Counted;
      if IdOf(idOf, ctx) in mapTxLockVote {
        return;
      }
      NewVoter(ranking, idOf, mapTxLockVote, mapTxLocks, ctx);
      mapTxLockVote := mapTxLockVote[IdOf(idOf, ctx) := ctx];
      var ok := ProcessConsensusVote(ctx, fSignatureValid, nNow);
    }

    /**
     * The "txlreq" message. fValid stands for the checks on values, fees and scripts, fAccepted for the memory pool's
     * answer, and `own` for the vote this node casts when it is a masternode itself. A lock that the request finds
     * complete is looked at only when the request is rejected.
     */
    method ReceiveRequest(tx: LockTx, fValid: bool, fAccepted: bool, own: Option<Vote>, age: OutPoint -> int,
                          nBestHeight: int, nNow: int)
      requires Valid()
      modifies this`mapTxLocks, this`mapTxLockReq, this`mapTxLockReqRejected, this`mapLockedInputs, this`mapTxLockVote
      ensures Valid()
      ensures tx.id in old(mapTxLockReq) || tx.id in old(mapTxLockReqRejected) || !fValid ==>
        && mapTxLocks == old(mapTxLocks) && mapTxLockReq == old(mapTxLockReq) && mapLockedInputs == old(mapLockedInputs)
        && mapTxLockReqRejected == old(mapTxLockReqRejected) && mapTxLockVote == old(mapTxLockVote)
      ensures tx.id !in old(mapTxLockReq) && tx.id !in old(mapTxLockReqRejected) && fValid ==>
        var locks := Requested(old(mapTxLocks), tx, age, nBestHeight, nNow);
        if fAccepted then
          && mapTxLockReq == old(mapTxLockReq)[tx.id := tx] && mapTxLockReqRejected == old(mapTxLockReqRejected)
          && mapLockedInputs == old(mapLockedInputs) && mapTxLocks == locks
          && mapTxLockVote == if own.Some? then old(mapTxLockVote)[IdOf(idOf, own.value) := own.value] else old(mapTxLockVote)
        else
          && mapTxLockReqRejected == old(mapTxLockReqRejected)[tx.id := tx] && mapTxLockReq == old(mapTxLockReq)
          && mapLockedInputs == LockInputs(old(mapLockedInputs), tx.vin, tx.id)
          && (Held(mapLockedInputs, tx.vin, tx.id) <==> FirstConflict(old(mapLockedInputs), tx.vin, tx.id).None?)
          && mapTxLocks == Conflicted(locks, old(mapLockedInputs), tx, nNow) && mapTxLockVote == old(mapTxLockVote)
    {
      hide LocksOk, RequestsOk, SignatureCount, FirstConflict, LockInputs, Held, Requested;
      if tx.id in mapTxLockReq || tx.id in mapTxLockReqRejected {
        return;
      }
      if !fValid {
        return;
      }
      var nBlockHeight := CreateNewLock(tx, age, nBestHeight, nNow);
      RequestAdded(mapTxLockReq, mapTxLockReqRejected, old(mapTxLocks), mapTxLocks, tx);
      RequestAdded(mapTxLockReq, mapTxLockReqRejected, old(mapTxLocks),
                   Conflicted(mapTxLocks, mapLockedInputs, tx, nNow), tx);
      if fAccepted {
        if own.Some? {
          MoreKnown(ranking, idOf, mapTxLockVote, mapTxLocks, IdOf(idOf, own.value), own.value);
          mapTxLockVote := mapTxLockVote[IdOf(idOf, own.value) := own.value];
        }
        mapTxLockReq := mapTxLockReq[tx.id := tx];
        return;
      }
      mapTxLockReqRejected := mapTxLockReqRejected[tx.id := tx];
      LockInputsOf(tx, tx.id);
      HeldIffNoConflict(old(mapLockedInputs), tx.vin, tx.id);
      SameConflict(old(mapLockedInputs), tx.vin, tx.vin, tx.id);
      if tx.id in mapTxLocks {
        var n := CountSignatures(mapTxLocks[tx.id]);
        if n >= SIGNATURES_REQUIRED {
          ghost var locks := mapTxLocks;
          var conflict := CheckForConflictingLocks(tx, nNow);
          ExpireKeeps(ranking, idOf, mapTxLockVote, locks, tx.id, nNow);
          if conflict {
            ExpireKeeps(ranking, idOf, mapTxLockVote, Expire(locks, tx.id, nNow),
                        FirstConflict(mapLockedInputs, tx.vin, tx.id).value, nNow);
          }
        }
      }
    }

    /** Exactly the expired locks go, and with those of accepted requests their votes and inputs, whoever holds these. */
    method CleanTransactionLocksList(nNow: int)
      requires Valid()
      modifies this`mapTxLocks, this`mapTxLockReq, this`mapTxLockReqRejected, this`mapLockedInputs, this`mapTxLockVote
      ensures Valid() && mapTxLocks == old(mapTxLocks) - ExpiredIds(old(mapTxLocks), nNow)
      ensures mapTxLockReq == old(mapTxLockReq) - ExpiredIds(old(mapTxLocks), nNow)
      ensures mapLockedInputs ==
              old(mapLockedInputs) - Released(old(mapTxLockReq), ExpiredIds(old(mapTxLocks), nNow))
    {
      hide LocksOk, RequestsOk, IdsOf, Released, ExpiredIds;
      var todo := mapTxLocks.Keys;
      ghost var req: map<TxId, LockTx> := mapTxLockReq;
      ghost var locks, locked := mapTxLocks, mapLockedInputs;
      ghost var gone: set<TxId> := {};
      ReleaseNone(req);
      ghost var expired := ExpiredIds(locks, nNow);
      ExpiredMeans(locks, nNow);
      while todo != {}
        invariant todo <= locks.Keys && gone !! todo && Valid()
        invariant gone == expired - todo
        invariant mapTxLocks == locks - gone && mapTxLockReq == req - gone
        invariant mapLockedInputs == locked - Released(req, gone)
        decreases |todo|
      {
        var h: TxId :| h in todo;
        if nNow > mapTxLocks[h].nExpiration {
          OneGone(req, locks, locked, gone, h);
          RemoveLock(h);
          gone := gone + {h};
        }
        todo := todo - {h};
      }
    }

    /** With the lock of an accepted request go its inputs; those of a rejected request stay locked. */
    method RemoveLock(h: TxId)
      requires Valid() && h in mapTxLocks
      modifies this`mapTxLocks, this`mapTxLockReq, this`mapTxLockReqRejected, this`mapLockedInputs, this`mapTxLockVote
      ensures Valid() && mapTxLocks == old(mapTxLocks) - {h}
      ensures h in old(mapTxLockReq) ==>
        && mapTxLockReq == old(mapTxLockReq) - {h} && mapTxLockReqRejected == old(mapTxLockReqRejected) - {h}
        && mapLockedInputs == old(mapLockedInputs) - (set o | o in old(mapTxLockReq)[h].vin)
        && mapTxLockVote == old(mapTxLockVote) - IdsOf(idOf, old(mapTxLocks)[h])
      ensures h !in old(mapTxLockReq) ==>
        && mapTxLockReq == old(mapTxLockReq) && mapTxLockReqRejected == old(mapTxLockReqRejected)
        && mapLockedInputs == old(mapLockedInputs) && mapTxLockVote == old(mapTxLockVote)
      ensures h in old(mapTxLockReqRejected) ==> mapLockedInputs == old(mapLockedInputs)
    {
      hide LocksOk, RequestsOk, IdsOf;
      RequestRemoved(mapTxLockReq, mapTxLockReqRejected, mapTxLocks, h);
      LockRemoved(ranking, idOf, mapTxLockVote, mapTxLocks, h);
      if h in mapTxLockReq {
        mapLockedInputs := mapLockedInputs - (set o | o in mapTxLockReq[h].vin);
        mapTxLockReq := mapTxLockReq - {h};
        mapTxLockReqRejected := mapTxLockReqRejected - {h};
        mapTxLockVote := mapTxLockVote - IdsOf(idOf, mapTxLocks[h]);
      }
      mapTxLocks := mapTxLocks - {h};
    }
  }

  function ExpiredIds(locks: map<TxId, Lock>, nNow: int): set<TxId> {
    set h | h in locks && nNow > locks[h].nExpiration
  }

  lemma ExpiredMeans(locks: map<TxId, Lock>, nNow: int)
    ensures forall h :: h in ExpiredIds(locks, nNow) <==> h in locks && nNow > locks[h].nExpiration
    ensures ExpiredIds(locks, nNow) - locks.Keys == {}
  {
  }

  /** The inputs of the accepted requests among these. */
  function Released(req: map<TxId, LockTx>, gone: set<TxId>): set<OutPoint> {
    set h, o | h in gone && h in req && o in req[h].vin :: o
  }

  lemma ReleaseNone(req: map<TxId, LockTx>)
    ensures Released(req, {}) == {}
  {
  }

  /** One expired lock more. */
  lemma OneGone(req: map<TxId, LockTx>, locks: map<TxId, Lock>, locked: map<OutPoint, TxId>, gone: set<TxId>, h: TxId)
    ensures locks - gone - {h} == locks - (gone + {h}) && req - gone - {h} == req - (gone + {h})
    ensures h !in req ==> req - gone == req - (gone + {h}) && Released(req, gone + {h}) == Released(req, gone)
    ensures h in req ==>
      locked - Released(req, gone) - (set o | o in req[h].vin) == locked - Released(req, gone + {h})
  {
    hide Released;
    ReleaseOne(req, gone, h);
    assert forall s: set<OutPoint>, t: set<OutPoint> :: locked - s - t == locked - (s + t);
  }

  lemma ReleaseOne(req: map<TxId, LockTx>, gone: set<TxId>, h: TxId)
    ensures Released(req, gone + {h}) == Released(req, gone) + if h in req then set o | o in req[h].vin else {}
  {
  }

  function IdsOf(idOf: IdFunction, l: Lock): set<VoteId> {
    set v | v in l.votes :: IdOf(idOf, v)
  }

  /** The id of the vote is none of a vote in any lock. */
  ghost predicate NewId(idOf: IdFunction, locks: map<TxId, Lock>, ctx: Vote) {
    forall h, k :: h in locks && 0 <= k < |locks[h].votes| ==> IdOf(idOf, locks[h].votes[k]) != IdOf(idOf, ctx)
  }

  lemma ExpireKeeps(ranking: Ranking, idOf: IdFunction, known: map<VoteId, Vote>, locks: map<TxId, Lock>, h: TxId, nNow: int)
    requires LocksOk(ranking, idOf, known, locks)
    ensures LocksOk(ranking, idOf, known, Expire(locks, h, nNow))
  {
    SameVotesKeep(ranking, idOf, known, locks, Expire(locks, h, nNow));
  }

  /** The invariant is about votes only. */
  lemma SameVotesKeep(ranking: Ranking, idOf: IdFunction, known: map<VoteId, Vote>, locks: map<TxId, Lock>,
                      locks': map<TxId, Lock>)
    requires LocksOk(ranking, idOf, known, locks)
    requires forall x :: x in locks' ==> locks'[x].txHash == x
    requires forall x :: x in locks' ==> locks'[x].votes == VotesFor(locks, x)
    ensures LocksOk(ranking, idOf, known, locks')
  {
    hide InQuorum;
    forall x | x in locks'
      ensures LockOk(ranking, x, locks'[x]) && VotesKnown(idOf, known, locks'[x])
    {
      if x in locks {
        assert LockOk(ranking, x, locks[x]) && VotesKnown(idOf, known, locks[x]);
      }
    }
  }

  lemma LockRequested(ranking: Ranking, idOf: IdFunction, known: map<VoteId, Vote>, locks: map<TxId, Lock>, h: TxId,
                      nBlockHeight: int, nNow: int)
    requires LocksOk(ranking, idOf, known, locks)
    ensures h !in locks ==> LocksOk(ranking, idOf, known, locks[h := NewLock(h, nBlockHeight, nNow)])
    ensures h in locks ==> LocksOk(ranking, idOf, known, locks[h := locks[h].(nBlockHeight := nBlockHeight)])
  {
    if h !in locks {
      SameVotesKeep(ranking, idOf, known, locks, locks[h := NewLock(h, nBlockHeight, nNow)]);
    } else {
      SameVotesKeep(ranking, idOf, known, locks, locks[h := locks[h].(nBlockHeight := nBlockHeight)]);
    }
  }

  lemma MoreKnown(ranking: Ranking, idOf: IdFunction, known: map<VoteId, Vote>, locks: map<TxId, Lock>, id: VoteId, v: Vote)
    requires LocksOk(ranking, idOf, known, locks)
    ensures LocksOk(ranking, idOf, known[id := v], locks)
  {
    hide LockOk, IdsApart;
    forall x | x in locks
      ensures VotesKnown(idOf, known[id := v], locks[x])
    {
      assert VotesKnown(idOf, known, locks[x]);
    }
  }

  /** An unknown id is a new one. */
  lemma NewVoter(ranking: Ranking, idOf: IdFunction, known: map<VoteId, Vote>, locks: map<TxId, Lock>, ctx: Vote)
    requires LocksOk(ranking, idOf, known, locks) && IdOf(idOf, ctx) !in known
    ensures NewId(idOf, locks, ctx) && LocksOk(ranking, idOf, known[IdOf(idOf, ctx) := ctx], locks)
  {
    MoreKnown(ranking, idOf, known, locks, IdOf(idOf, ctx), ctx);
    forall h, k | h in locks && 0 <= k < |locks[h].votes|
      ensures IdOf(idOf, locks[h].votes[k]) != IdOf(idOf, ctx)
    {
      assert VotesKnown(idOf, known, locks[h]);
    }
  }

  /** A vote with a new id is one of another masternode than the votes in its lock. */
  lemma VoteAdded(ranking: Ranking, idOf: IdFunction, known: map<VoteId, Vote>, locks: map<TxId, Lock>, ctx: Vote, nNow: int)
    requires LocksOk(ranking, idOf, known, locks) && IdOf(idOf, ctx) in known && NewId(idOf, locks, ctx)
    requires InQuorum(ranking, ctx)
    ensures LocksOk(ranking, idOf, known, locks[ctx.txHash := WithVote(locks, ctx, nNow)])
  {
    hide InQuorum;
    var h, lock := ctx.txHash, WithVote(locks, ctx, nNow);
    var old_ := VotesFor(locks, h);
    assert lock.votes == old_ + [ctx];
    if h in locks {
      assert LockOk(ranking, h, locks[h]) && VotesKnown(idOf, known, locks[h]);
    }
    forall k | 0 <= k < |old_|
      ensures old_[k].vinMasternode.prevout != ctx.vinMasternode.prevout
    {
      assert old_[k].txHash == h && IdOf(idOf, locks[h].votes[k]) != IdOf(idOf, ctx);
    }
    IdsStayApart(idOf, locks, ctx, lock);
  }

  lemma IdsStayApart(idOf: IdFunction, locks: map<TxId, Lock>, ctx: Vote, lock: Lock)
    requires IdsApart(idOf, locks) && NewId(idOf, locks, ctx) && lock.votes == VotesFor(locks, ctx.txHash) + [ctx]
    ensures IdsApart(idOf, locks[ctx.txHash := lock])
  {
    var h, after := ctx.txHash, locks[ctx.txHash := lock];
    forall x, y, j, k | x in after && y in after && 0 <= j < |after[x].votes| && 0 <= k < |after[y].votes| && (x != y || j != k)
      ensures IdOf(idOf, after[x].votes[j]) != IdOf(idOf, after[y].votes[k])
    {
      var n := |lock.votes| - 1;
      if (x == h && j == n) || (y == h && k == n) {
        assert x == h && j == n ==> after[x].votes[j] == ctx && after[y].votes[k] == locks[y].votes[k];
        assert y == h && k == n ==> after[y].votes[k] == ctx && after[x].votes[j] == locks[x].votes[j];
      } else {
        assert after[x].votes[j] == locks[x].votes[j] && after[y].votes[k] == locks[y].votes[k];
      }
    }
  }

  /** Forgetting the votes of one lock leaves those of the others known. */
  lemma LockRemoved(ranking: Ranking, idOf: IdFunction, known: map<VoteId, Vote>, locks: map<TxId, Lock>, h: TxId)
    requires LocksOk(ranking, idOf, known, locks) && h in locks
    ensures LocksOk(ranking, idOf, known, locks - {h})
    ensures LocksOk(ranking, idOf, known - IdsOf(idOf, locks[h]), locks - {h})
  {
    SameVotesKeep(ranking, idOf, known, locks, locks - {h}) by {
      assert forall x :: x in locks ==> LockOk(ranking, x, locks[x]);
    }
    hide LockOk;
    forall x, k | x in locks - {h} && 0 <= k < |locks[x].votes|
      ensures IdOf(idOf, locks[x].votes[k]) in known - IdsOf(idOf, locks[h])
    {
      assert VotesKnown(idOf, known, locks[x]);
      forall v | v in locks[h].votes
        ensures IdOf(idOf, v) != IdOf(idOf, locks[x].votes[k])
      {
        var j :| 0 <= j < |locks[h].votes| && locks[h].votes[j] == v;
      }
    }
  }

  lemma HeightsKept(req: map<TxId, LockTx>, rejected: map<TxId, LockTx>, locks: map<TxId, Lock>, h: TxId, lock: Lock)
    requires RequestsOk(req, rejected, locks)
    requires lock.nBlockHeight == if h in locks then locks[h].nBlockHeight else 0
    ensures RequestsOk(req, rejected, locks[h := lock])
  {
  }

  /** A lock without a request has no height, and so is not complete. */
  lemma CompleteIsRequested(req: map<TxId, LockTx>, rejected: map<TxId, LockTx>, locks: map<TxId, Lock>, h: TxId)
    requires RequestsOk(req, rejected, locks) && h in locks && Complete(locks[h])
    ensures h in req || h in rejected
  {
  }

  /** Looking the request up and checking for conflicts comes to what Completed says. */
  lemma CompletedCases(req: map<TxId, LockTx>, rejected: map<TxId, LockTx>, locks: map<TxId, Lock>,
                       locked: map<OutPoint, TxId>, h: TxId, nNow: int)
    requires RequestsOk(req, rejected, locks) && h in locks && Complete(locks[h])
    ensures var req' := if h in req then req else req[h := EMPTY_TX];
      var tx := req'[h];
      var rival := FirstConflict(locked, tx.vin, tx.id);
      var locks' := if rival.Some? then Expire(Expire(locks, tx.id, nNow), rival.value, nNow) else locks;
      var locked' := if rival.Some? then locked else LockInputs(locked, tx.vin, h);
      && Completed(req, rejected, locks, locked, h, nNow, req', locks', locked') && RequestsOk(req', rejected, locks')
      && locks'.Keys == locks.Keys
      && forall x :: x in locks' ==> locks'[x] == locks[x].(nExpiration := locks'[x].nExpiration)
  {
    NothingToLock(locked, h);
  }

  lemma NothingToLock(locked: map<OutPoint, TxId>, id: TxId)
    ensures LockInputs(locked, [], id) == locked && forall x :: FirstConflict(locked, [], x).None?
  {
  }

  lemma RequestAdded(req: map<TxId, LockTx>, rejected: map<TxId, LockTx>, locks: map<TxId, Lock>, locks': map<TxId, Lock>,
                     tx: LockTx)
    requires RequestsOk(req, rejected, locks) && tx.id !in req && tx.id !in rejected
    requires forall h :: h in locks' && h != tx.id ==> h in locks && locks'[h].nBlockHeight == locks[h].nBlockHeight
    ensures RequestsOk(req[tx.id := tx], rejected, locks') && RequestsOk(req, rejected[tx.id := tx], locks')
  {
  }

  lemma RequestRemoved(req: map<TxId, LockTx>, rejected: map<TxId, LockTx>, locks: map<TxId, Lock>, h: TxId)
    requires RequestsOk(req, rejected, locks)
    ensures RequestsOk(req - {h}, rejected - {h}, locks - {h}) && RequestsOk(req, rejected, locks - {h})
    ensures h in req && h in rejected ==> req[h] == EMPTY_TX
  {
  }

  /** Without a conflict, locking the free inputs leaves all of them locked by id. */
  lemma {:induction false} AllLocked(locked: map<OutPoint, TxId>, vin: seq<OutPoint>, id: TxId)
    requires FirstConflict(locked, vin, id).None?
    ensures forall o <- vin :: o in locked ==> locked[o] == id
  {
    if vin != [] {
      AllLocked(locked, vin[1..], id);
    }
  }
}
